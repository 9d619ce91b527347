/** Lazy-deletion Dijkstra and the predecessor walk (src/graph.rs:523-595), over
    any addition that is monotone and never decreases: real addition and rounded
    floating-point addition are both such. */
module Dijkstra {
  import opened Wrappers
  import opened Graph

  type Adder = (real, real) -> real

  ghost predicate Grows(add: Adder) {
    && (forall a: real, w: real :: w >= 0.0 ==> a <= add(a, w))
    && (forall a: real, b: real, w: real :: a <= b && w >= 0.0 ==> add(a, w) <= add(b, w))
  }

  function Clamp(w: real): real { if w > 0.0 then w else 0.0 }

  /** One step along out-edge number `k` of node `from`. */
  datatype Hop = Hop(from: nat, k: nat)

  ghost predicate IsHop(g: GraphView, h: Hop)
    requires g.Valid()
  {
    h.from < g.Count() && h.k < |g.ArcsOf(h.from)|
  }

  /** The node a walk from `s` ends at, and its cost folded from the left. */
  ghost function EndOf(g: GraphView, s: nat, hops: seq<Hop>): nat
    requires g.Valid() && forall i :: 0 <= i < |hops| ==> IsHop(g, hops[i])
  {
    if hops == [] then s
    else
      var h := hops[|hops|-1];
      assert IsHop(g, h);
      g.ArcsOf(h.from)[h.k].to
  }

  ghost predicate IsWalk(g: GraphView, s: nat, hops: seq<Hop>)
    requires g.Valid()
    decreases |hops|
  {
    && (forall i :: 0 <= i < |hops| ==> IsHop(g, hops[i]))
    && (hops != [] ==> IsWalk(g, s, hops[..|hops|-1]) && EndOf(g, s, hops[..|hops|-1]) == hops[|hops|-1].from)
  }

  ghost function Cost(g: GraphView, add: Adder, hops: seq<Hop>): real
    requires g.Valid() && forall i :: 0 <= i < |hops| ==> IsHop(g, hops[i])
  {
    if hops == [] then 0.0
    else
      var h := hops[|hops|-1];
      assert IsHop(g, h);
      var w := g.ArcsOf(h.from)[h.k].weight;
      add(Cost(g, add, hops[..|hops|-1]), if w < 0.0 then 0.0 else w)
  }

  /** The weights of the arcs a walk takes, as the graph has them. */
  ghost function WeightsOf(g: GraphView, hops: seq<Hop>): seq<real>
    requires g.Valid() && forall i :: 0 <= i < |hops| ==> IsHop(g, hops[i])
  {
    if hops == [] then []
    else
      var h := hops[|hops|-1];
      assert IsHop(g, h);
      WeightsOf(g, hops[..|hops|-1]) + [g.ArcsOf(h.from)[h.k].weight]
  }

  function Folded(add: Adder, ws: seq<real>): real {
    if ws == [] then 0.0 else add(Folded(add, ws[..|ws|-1]), ws[|ws|-1])
  }

  /** Zero where a weight is negative, the weight itself elsewhere. */
  ghost predicate Floored(ws: seq<real>, weights: seq<real>) {
    |ws| == |weights| && forall i :: 0 <= i < |ws| ==> ws[i] == if weights[i] < 0.0 then 0.0 else weights[i]
  }

  /** The cost of a walk is the left fold of its weights, a negative one counting as
      zero: of the very weights if none is negative. */
  lemma {:induction false} CostMeans(g: GraphView, add: Adder, hops: seq<Hop>, ws: seq<real>)
    requires g.Valid() && (forall i :: 0 <= i < |hops| ==> IsHop(g, hops[i])) && Floored(ws, WeightsOf(g, hops))
    ensures Cost(g, add, hops) == Folded(add, ws) && |ws| == |hops|
    ensures (forall i :: 0 <= i < |hops| ==> WeightsOf(g, hops)[i] >= 0.0) ==> Cost(g, add, hops) == Folded(add, WeightsOf(g, hops))
  {
    if hops != [] {
      var (n, weights) := (|hops| - 1, WeightsOf(g, hops));
      assert weights[..|weights|-1] == WeightsOf(g, hops[..n]);
      CostMeans(g, add, hops[..n], ws[..|ws|-1]);
      assert IsHop(g, hops[n]);
    }
    if forall i :: 0 <= i < |hops| ==> WeightsOf(g, hops)[i] >= 0.0 { assert ws == WeightsOf(g, hops); }
  }

  // ---- the search ----------------------------------------------------------

  datatype Dist = Infinite | Finite(d: real)

  predicate Improves(nd: real, than: Dist) { than.Infinite? || nd < than.d }

  /** A heap entry. The heap is any priority queue: pop yields an entry of least cost. */
  datatype Item = Item(cost: real, node: nat)

  ghost predicate IsLeast(heap: multiset<Item>, x: Item) { x in heap && forall y :: y in heap ==> x.cost <= y.cost }

  lemma {:induction false} LeastExists(heap: multiset<Item>)
    requires heap != multiset{}
    ensures exists x :: IsLeast(heap, x)
    decreases |heap|
  {
    var x :| x in heap;
    var rest := heap - multiset{x};
    assert heap == rest + multiset{x};
    if rest == multiset{} {
      assert IsLeast(heap, x);
    } else {
      LeastExists(rest);
      var m :| IsLeast(rest, m);
      assert IsLeast(heap, if x.cost <= m.cost then x else m);
    }
  }

  method Pop(heap: multiset<Item>) returns (x: Item, rest: multiset<Item>)
    requires heap != multiset{}
    ensures x in heap && (forall y :: y in heap ==> x.cost <= y.cost)
    ensures rest == heap - multiset{x}
  {
    LeastExists(heap);
    ghost var m :| IsLeast(heap, m);
    x :| x in heap && forall y :: y in heap ==> x.cost <= y.cost;
    rest := heap - multiset{x};
  }

  /** Where a node stands in the order nodes were settled; unsettled ones come last. */
  ghost function Rank(settled: seq<nat>, v: nat): (r: nat)
    ensures r <= |settled|
    ensures v in settled ==> r < |settled| && settled[r] == v
    ensures v !in settled ==> r == |settled|
  {
    if settled == [] then 0
    else if settled[0] == v then 0
    else 1 + Rank(settled[1..], v)
  }

  lemma {:induction false} RankAppend(settled: seq<nat>, u: nat, v: nat)
    requires u !in settled
    ensures v in settled ==> Rank(settled + [u], v) == Rank(settled, v)
    ensures v == u ==> Rank(settled + [u], v) == |settled|
  {
    if settled != [] {
      assert (settled + [u])[1..] == settled[1..] + [u];
      RankAppend(settled[1..], u, v);
    }
  }

  /** `dist[v]` was set by relaxing an edge out of `prev[v]`, settled earlier. */
  ghost predicate Parent(g: GraphView, add: Adder, dist: seq<Dist>, prev: seq<nat>, settled: seq<nat>, v: nat)
    requires g.Valid() && |dist| == |prev| == g.Count() && v < g.Count()
  {
    var u := prev[v];
    && u < g.Count() && u in settled && dist[u].Finite? && dist[v].Finite?
    && Rank(settled, u) < Rank(settled, v)
    && exists k :: 0 <= k < |g.ArcsOf(u)| && g.ArcsOf(u)[k].to == v && dist[v].d == add(dist[u].d, Clamp(g.ArcsOf(u)[k].weight))
  }

  ghost predicate Tree(g: GraphView, add: Adder, s: nat, dist: seq<Dist>, prev: seq<nat>, settled: seq<nat>)
    requires g.Valid()
  {
    && |dist| == |prev| == g.Count() && s < g.Count() && dist[s] == Finite(0.0)
    && (forall i, j :: 0 <= i < j < |settled| ==> settled[i] != settled[j])
    && (forall v :: v in settled ==> v < g.Count() && dist[v].Finite?)
    && (forall v :: 0 <= v < g.Count() && dist[v].Finite? ==> 0.0 <= dist[v].d)
    && (forall v :: 0 <= v < g.Count() && dist[v].Finite? && v != s ==> Parent(g, add, dist, prev, settled, v))
  }

  ghost predicate Queue(n: nat, dist: seq<Dist>, heap: multiset<Item>, settled: seq<nat>) {
    && |dist| == n
    && (forall x :: x in heap ==> x.node < n && dist[x.node].Finite? && dist[x.node].d <= x.cost)
    && (forall v :: 0 <= v < n && dist[v].Finite? ==> heap[Item(dist[v].d, v)] == if v in settled then 0 else 1)
  }

  /** Settled nodes are no farther than `d`, waiting entries no nearer. */
  ghost predicate Frontier(n: nat, dist: seq<Dist>, heap: multiset<Item>, settled: seq<nat>, d: real) {
    && |dist| == n
    && (forall u :: u in settled && u < n ==> dist[u].Finite? && dist[u].d <= d)
    && (forall x :: x in heap ==> d <= x.cost)
  }

  ghost predicate EdgeRelaxed(g: GraphView, add: Adder, dist: seq<Dist>, u: nat, k: nat)
    requires g.Valid() && |dist| == g.Count() && u < g.Count() && k < |g.ArcsOf(u)|
  {
    var a := g.ArcsOf(u)[k];
    a.to < g.Count() && dist[u].Finite? && dist[a.to].Finite? && dist[a.to].d <= add(dist[u].d, Clamp(a.weight))
  }

  ghost predicate Relaxed(g: GraphView, add: Adder, dist: seq<Dist>, settled: seq<nat>)
    requires g.Valid() && |dist| == g.Count()
  {
    forall u, k :: u in settled && u < g.Count() && 0 <= k < |g.ArcsOf(u)| ==> EdgeRelaxed(g, add, dist, u, k)
  }

  /** The invariant between pops: `d` is the last cost popped. */
  ghost predicate Search(g: GraphView, add: Adder, s: nat, dist: seq<Dist>, prev: seq<nat>, heap: multiset<Item>, settled: seq<nat>, d: real)
    requires g.Valid()
  {
    && Tree(g, add, s, dist, prev, settled) && Queue(g.Count(), dist, heap, settled)
    && Frontier(g.Count(), dist, heap, settled, d) && Relaxed(g, add, dist, settled)
  }

  lemma {:induction false} ArcInRange(g: GraphView, u: nat, k: nat)
    requires g.Valid() && u < g.Count() && k < |g.ArcsOf(u)|
    ensures g.ArcsOf(u)[k].to < g.Count()
  {
    SliceOk(g.offsets, g.Count(), |g.arcs|, u);
    assert g.ArcsOf(u)[k] == g.arcs[g.offsets[u] + k];
  }

  // ---- relaxing one edge ---------------------------------------------------

  lemma {:induction false} RelaxTree(g: GraphView, add: Adder, s: nat, dist: seq<Dist>, prev: seq<nat>, settled: seq<nat>, u: nat, k: nat, nd: real)
    requires g.Valid() && Grows(add) && Tree(g, add, s, dist, prev, settled)
    requires u in settled && k < |g.ArcsOf(u)| && dist[u].Finite?
    requires var a := g.ArcsOf(u)[k]; a.to < g.Count() && a.to !in settled && nd == add(dist[u].d, Clamp(a.weight)) && Improves(nd, dist[a.to])
    ensures var v := g.ArcsOf(u)[k].to; Tree(g, add, s, dist[v := Finite(nd)], prev[v := u], settled)
  {
    var v := g.ArcsOf(u)[k].to;
    var (dist', prev') := (dist[v := Finite(nd)], prev[v := u]);
    assert dist[u].d <= nd;
    assert v != s;
    forall x | 0 <= x < g.Count() && dist'[x].Finite? && x != s ensures Parent(g, add, dist', prev', settled, x) {
      if x == v {
        assert g.ArcsOf(u)[k].to == x && dist'[x].d == add(dist'[u].d, Clamp(g.ArcsOf(u)[k].weight));
      } else {
        assert Parent(g, add, dist, prev, settled, x);
      }
    }
  }

  lemma {:induction false} RelaxQueue(n: nat, dist: seq<Dist>, heap: multiset<Item>, settled: seq<nat>, v: nat, nd: real, d: real)
    requires Queue(n, dist, heap, settled) && Frontier(n, dist, heap, settled, d) && v < n && v !in settled && Improves(nd, dist[v]) && d <= nd
    ensures Queue(n, dist[v := Finite(nd)], heap + multiset{Item(nd, v)}, settled)
    ensures Frontier(n, dist[v := Finite(nd)], heap + multiset{Item(nd, v)}, settled, d)
  {
  }

  lemma {:induction false} RelaxKeepsRelaxed(g: GraphView, add: Adder, dist: seq<Dist>, settled: seq<nat>, v: nat, nd: real)
    requires g.Valid() && |dist| == g.Count() && Relaxed(g, add, dist, settled) && v < g.Count() && v !in settled && Improves(nd, dist[v])
    ensures Relaxed(g, add, dist[v := Finite(nd)], settled)
  {
    var dist' := dist[v := Finite(nd)];
    forall u, k | u in settled && u < g.Count() && 0 <= k < |g.ArcsOf(u)| ensures EdgeRelaxed(g, add, dist', u, k) {
      assert EdgeRelaxed(g, add, dist, u, k);
    }
  }

  lemma {:induction false} SettleTree(g: GraphView, add: Adder, s: nat, dist: seq<Dist>, prev: seq<nat>, settled: seq<nat>, u: nat)
    requires g.Valid() && Tree(g, add, s, dist, prev, settled) && u < g.Count() && dist[u].Finite? && u !in settled
    ensures Tree(g, add, s, dist, prev, settled + [u])
  {
    hide GraphView.Valid;
    var settled' := settled + [u];
    forall v | 0 <= v < g.Count() && dist[v].Finite? && v != s ensures Parent(g, add, dist, prev, settled', v) {
      assert Parent(g, add, dist, prev, settled, v);
      RankAppend(settled, u, v);
      RankAppend(settled, u, prev[v]);
    }
  }

  lemma {:induction false} SettleQueue(n: nat, dist: seq<Dist>, heap: multiset<Item>, settled: seq<nat>, x: Item, d: real)
    requires Queue(n, dist, heap, settled) && Frontier(n, dist, heap, settled, d)
    requires x in heap && (forall y :: y in heap ==> x.cost <= y.cost) && x.cost <= dist[x.node].d
    ensures x.node < n && x.node !in settled && dist[x.node] == Finite(x.cost)
    ensures Queue(n, dist, heap - multiset{x}, settled + [x.node])
    ensures Frontier(n, dist, heap - multiset{x}, settled + [x.node], x.cost)
  {
    assert x == Item(dist[x.node].d, x.node);
  }

  /** Settling the popped node while its edges are still unread. */
  lemma {:induction false} SettleKeeps(g: GraphView, add: Adder, s: nat, dist: seq<Dist>, prev: seq<nat>, heap: multiset<Item>, settled: seq<nat>, x: Item, d: real)
    requires g.Valid() && Search(g, add, s, dist, prev, heap, settled, d)
    requires x in heap && (forall y :: y in heap ==> x.cost <= y.cost) && x.node < g.Count() && x.cost <= dist[x.node].d
    ensures Relaxing(g, add, s, dist, prev, heap - multiset{x}, settled, x.node, x.cost, 0)
  {
    SettleQueue(g.Count(), dist, heap, settled, x, d);
    SettleTree(g, add, s, dist, prev, settled, x.node);
  }

  /** A stale entry may simply be dropped. */
  lemma {:induction false} DropKeeps(g: GraphView, add: Adder, s: nat, dist: seq<Dist>, prev: seq<nat>, heap: multiset<Item>, settled: seq<nat>, x: Item, d: real)
    requires g.Valid() && Search(g, add, s, dist, prev, heap, settled, d)
    requires x in heap && x.cost > dist[x.node].d
    ensures Search(g, add, s, dist, prev, heap - multiset{x}, settled, d)
  {
    hide Tree;
    hide Relaxed;
    var heap' := heap - multiset{x};
    forall v | 0 <= v < g.Count() && dist[v].Finite? ensures heap'[Item(dist[v].d, v)] == heap[Item(dist[v].d, v)] {
      assert Item(dist[v].d, v) != x;
    }
  }

  /** Settled so far except that only the first `k` edges of the last one are read. */
  ghost predicate Relaxing(g: GraphView, add: Adder, s: nat, dist: seq<Dist>, prev: seq<nat>, heap: multiset<Item>, settled: seq<nat>, u: nat, d: real, k: nat)
    requires g.Valid()
  {
    && u < g.Count() && u !in settled && k <= |g.ArcsOf(u)|
    && Tree(g, add, s, dist, prev, settled + [u]) && dist[u] == Finite(d)
    && Queue(g.Count(), dist, heap, settled + [u]) && Frontier(g.Count(), dist, heap, settled + [u], d)
    && Relaxed(g, add, dist, settled)
    && forall j :: 0 <= j < k ==> EdgeRelaxed(g, add, dist, u, j)
  }

  lemma {:induction false} RelaxOne(g: GraphView, add: Adder, s: nat, dist: seq<Dist>, prev: seq<nat>, heap: multiset<Item>, settled: seq<nat>, u: nat, d: real, k: nat)
    requires g.Valid() && Grows(add) && Relaxing(g, add, s, dist, prev, heap, settled, u, d, k) && k < |g.ArcsOf(u)|
    ensures var a := g.ArcsOf(u)[k];
      var nd := add(d, Clamp(a.weight));
      && a.to < g.Count() && |dist| == |prev| == g.Count()
      && (Improves(nd, dist[a.to]) ==>
          Relaxing(g, add, s, dist[a.to := Finite(nd)], prev[a.to := u], heap + multiset{Item(nd, a.to)}, settled, u, d, k + 1))
      && (!Improves(nd, dist[a.to]) ==> Relaxing(g, add, s, dist, prev, heap, settled, u, d, k + 1))
  {
    ArcInRange(g, u, k);
    var a := g.ArcsOf(u)[k];
    var (v, nd) := (a.to, add(d, Clamp(a.weight)));
    assert d <= nd;
    if Improves(nd, dist[v]) {
      RelaxTaken(g, add, s, dist, prev, heap, settled, u, d, k, v, nd);
    }
  }

  /** An improvement never goes to a settled node: those are at most `d` away. */
  lemma {:induction false} Farther(n: nat, dist: seq<Dist>, heap: multiset<Item>, settled: seq<nat>, v: nat, nd: real, d: real)
    requires Frontier(n, dist, heap, settled, d) && v < n && Improves(nd, dist[v]) && d <= nd
    ensures v !in settled
  {
  }

  lemma {:induction false} TreeSizes(g: GraphView, add: Adder, s: nat, dist: seq<Dist>, prev: seq<nat>, settled: seq<nat>)
    requires g.Valid() && Tree(g, add, s, dist, prev, settled)
    ensures |dist| == |prev| == g.Count() && s < g.Count()
  {
  }

  lemma {:induction false} RelaxTaken(g: GraphView, add: Adder, s: nat, dist: seq<Dist>, prev: seq<nat>, heap: multiset<Item>, settled: seq<nat>, u: nat, d: real, k: nat,
                   v: nat, nd: real)
    requires g.Valid() && Grows(add) && Relaxing(g, add, s, dist, prev, heap, settled, u, d, k) && k < |g.ArcsOf(u)|
    requires v == g.ArcsOf(u)[k].to < |dist| == g.Count() && nd == add(d, Clamp(g.ArcsOf(u)[k].weight)) && d <= nd && Improves(nd, dist[v])
    ensures |dist| == |prev| && Relaxing(g, add, s, dist[v := Finite(nd)], prev[v := u], heap + multiset{Item(nd, v)}, settled, u, d, k + 1)
  {
    hide GraphView.Valid;
    hide Tree;
    hide Frontier;
    hide Queue;
    hide Relaxed;
    hide Grows;
    var all := settled + [u];
    Farther(g.Count(), dist, heap, all, v, nd, d);
    TreeSizes(g, add, s, dist, prev, all);
    assert all[|settled|] == u;
    RelaxTree(g, add, s, dist, prev, all, u, k, nd);
    RelaxQueue(g.Count(), dist, heap, all, v, nd, d);
    RelaxKeepsRelaxed(g, add, dist, settled, v, nd);
    var dist' := dist[v := Finite(nd)];
    forall j | 0 <= j < k + 1 ensures EdgeRelaxed(g, add, dist', u, j) {
      if j < k { assert EdgeRelaxed(g, add, dist, u, j); }
    }
  }

  lemma {:induction false} RelaxedAll(g: GraphView, add: Adder, s: nat, dist: seq<Dist>, prev: seq<nat>, heap: multiset<Item>, settled: seq<nat>, u: nat, d: real)
    requires g.Valid() && u < g.Count() && Relaxing(g, add, s, dist, prev, heap, settled, u, d, |g.ArcsOf(u)|)
    ensures Search(g, add, s, dist, prev, heap, settled + [u], d)
  {
    hide Tree;
    hide Queue;
  }

  /** Relax every out-edge of a node just settled (the inner loop of both searches). */
  method RelaxAll(g: GraphView, add: Adder, ghost s: nat, dist0: seq<Dist>, prev0: seq<nat>, heap0: multiset<Item>, ghost settled: seq<nat>, u: nat, d: real)
      returns (dist: seq<Dist>, prev: seq<nat>, heap: multiset<Item>)
    requires g.Valid() && Grows(add) && Relaxing(g, add, s, dist0, prev0, heap0, settled, u, d, 0)
    ensures Search(g, add, s, dist, prev, heap, settled + [u], d)
  {
    hide Tree;
    hide Queue;
    hide Frontier;
    hide Relaxed;
    hide Grows;
    hide EdgeRelaxed;
    dist, prev, heap := dist0, prev0, heap0;
    var arcs := g.ArcsOf(u);
    for k := 0 to |arcs|
      invariant Relaxing(g, add, s, dist, prev, heap, settled, u, d, k)
    {
      RelaxOne(g, add, s, dist, prev, heap, settled, u, d, k);
      var (v, nd) := (arcs[k].to, add(d, Clamp(arcs[k].weight)));
      if Improves(nd, dist[v]) {
        dist, prev, heap := dist[v := Finite(nd)], prev[v := u], heap + multiset{Item(nd, v)};
      }
    }
    RelaxedAll(g, add, s, dist, prev, heap, settled, u, d);
  }

  lemma {:induction false} DistinctFit(xs: seq<nat>, n: nat)
    requires forall i, j :: 0 <= i < j < |xs| ==> xs[i] != xs[j]
    requires forall v :: v in xs ==> v < n
    ensures |xs| <= n
  {
    if xs == [] {
    } else if n - 1 in xs {
      var i :| 0 <= i < |xs| && xs[i] == n - 1;
      var ys := xs[..i] + xs[i+1..];
      forall v | v in ys ensures v < n - 1 {
        var j :| 0 <= j < |ys| && ys[j] == v;
        assert v == xs[if j < i then j else j + 1];
        assert v in xs;
      }
      DistinctFit(ys, n - 1);
    } else {
      assert xs[0] in xs;
      DistinctFit(xs, n - 1);
    }
  }

  // ---- what the search proves ----------------------------------------------

  /** Every walk is at least as long as the distance found, or there is still a
      waiting entry no longer than it. */
  lemma {:induction false} WalkBound(g: GraphView, add: Adder, s: nat, dist: seq<Dist>, prev: seq<nat>, heap: multiset<Item>, settled: seq<nat>, d: real, hops: seq<Hop>)
    requires g.Valid() && Grows(add) && Search(g, add, s, dist, prev, heap, settled, d) && IsWalk(g, s, hops)
    ensures EndOf(g, s, hops) < g.Count()
    ensures var v := EndOf(g, s, hops);
      (dist[v].Finite? && dist[v].d <= Cost(g, add, hops)) || exists x :: x in heap && x.cost <= Cost(g, add, hops)
    decreases |hops|
  {
    if hops != [] {
      var n := |hops| - 1;
      var h := hops[n];
      assert IsHop(g, h);
      WalkBound(g, add, s, dist, prev, heap, settled, d, hops[..n]);
      ArcInRange(g, h.from, h.k);
      var w := Clamp(g.ArcsOf(h.from)[h.k].weight);
      var c := Cost(g, add, hops[..n]);
      assert c <= add(c, w);
      if dist[h.from].Finite? && dist[h.from].d <= c {
        if h.from in settled {
          assert EdgeRelaxed(g, add, dist, h.from, h.k);
          assert add(dist[h.from].d, w) <= add(c, w);
        } else {
          assert Item(dist[h.from].d, h.from) in heap;
        }
      }
    }
  }

  /** The tree of predecessors, read as a path of nodes. */
  ghost function TreePath(g: GraphView, add: Adder, s: nat, dist: seq<Dist>, prev: seq<nat>, settled: seq<nat>, v: nat): seq<nat>
    requires g.Valid() && Tree(g, add, s, dist, prev, settled) && v < g.Count() && dist[v].Finite?
    decreases Rank(settled, v)
  {
    if v == s then [s]
    else
      assert Parent(g, add, dist, prev, settled, v);
      TreePath(g, add, s, dist, prev, settled, prev[v]) + [v]
  }

  /** The nodes a walk visits. */
  ghost function NodesOf(g: GraphView, s: nat, hops: seq<Hop>): seq<nat>
    requires g.Valid() && forall i :: 0 <= i < |hops| ==> IsHop(g, hops[i])
  {
    if hops == [] then [s] else NodesOf(g, s, hops[..|hops|-1]) + [EndOf(g, s, hops)]
  }

  lemma {:induction false} WalkExtends(g: GraphView, add: Adder, s: nat, before: seq<Hop>, h: Hop)
    requires g.Valid() && IsWalk(g, s, before) && IsHop(g, h) && EndOf(g, s, before) == h.from
    ensures var hops := before + [h];
      && IsWalk(g, s, hops) && EndOf(g, s, hops) == g.ArcsOf(h.from)[h.k].to
      && Cost(g, add, hops) == add(Cost(g, add, before), Clamp(g.ArcsOf(h.from)[h.k].weight))
      && NodesOf(g, s, hops) == NodesOf(g, s, before) + [g.ArcsOf(h.from)[h.k].to]
  {
    hide GraphView.Valid;
    var hops := before + [h];
    assert hops[..|hops|-1] == before;
    forall i | 0 <= i < |hops| ensures IsHop(g, hops[i]) {
      if i < |before| { assert IsHop(g, before[i]); }
    }
  }

  lemma {:induction false} ParentHop(g: GraphView, add: Adder, dist: seq<Dist>, prev: seq<nat>, settled: seq<nat>, v: nat) returns (h: Hop)
    requires g.Valid() && |dist| == |prev| == g.Count() && v < g.Count() && Parent(g, add, dist, prev, settled, v)
    ensures h.from == prev[v] && IsHop(g, h) && g.ArcsOf(h.from)[h.k].to == v
    ensures dist[v].d == add(dist[h.from].d, Clamp(g.ArcsOf(h.from)[h.k].weight))
  {
    var u := prev[v];
    var k :| 0 <= k < |g.ArcsOf(u)| && g.ArcsOf(u)[k].to == v && dist[v].d == add(dist[u].d, Clamp(g.ArcsOf(u)[k].weight));
    h := Hop(u, k);
  }

  lemma {:induction false} TreeParent(g: GraphView, add: Adder, s: nat, dist: seq<Dist>, prev: seq<nat>, settled: seq<nat>, v: nat)
    requires g.Valid() && Tree(g, add, s, dist, prev, settled) && v < g.Count() && dist[v].Finite?
    ensures |dist| == |prev| == g.Count() && dist[s] == Finite(0.0)
    ensures v != s ==> prev[v] < g.Count() && dist[prev[v]].Finite? && Rank(settled, prev[v]) < Rank(settled, v) && Parent(g, add, dist, prev, settled, v)
  {
  }

  /** Each distance is the cost of a real walk, along the predecessors. */
  lemma {:induction false} TreeWalk(g: GraphView, add: Adder, s: nat, dist: seq<Dist>, prev: seq<nat>, settled: seq<nat>, v: nat) returns (hops: seq<Hop>)
    requires g.Valid() && Tree(g, add, s, dist, prev, settled) && v < g.Count() && dist[v].Finite?
    ensures IsWalk(g, s, hops) && EndOf(g, s, hops) == v && Cost(g, add, hops) == dist[v].d
    ensures NodesOf(g, s, hops) == TreePath(g, add, s, dist, prev, settled, v)
    decreases Rank(settled, v)
  {
    hide GraphView.Valid;
    hide Tree;
    hide Parent;
    TreeParent(g, add, s, dist, prev, settled, v);
    if v == s {
      hops := [];
    } else {
      var h := ParentHop(g, add, dist, prev, settled, v);
      var before := TreeWalk(g, add, s, dist, prev, settled, prev[v]);
      WalkExtends(g, add, s, before, h);
      hops := before + [h];
    }
  }

  // ---- the two searches ----------------------------------------------------

  ghost predicate WalkTo(g: GraphView, s: nat, v: nat, hops: seq<Hop>)
    requires g.Valid()
  {
    IsWalk(g, s, hops) && EndOf(g, s, hops) == v
  }

  ghost predicate Reachable(g: GraphView, s: nat, v: nat)
    requires g.Valid()
  {
    exists hops :: WalkTo(g, s, v, hops)
  }

  ghost predicate NoCheaper(g: GraphView, add: Adder, s: nat, v: nat, c: real)
    requires g.Valid()
  {
    forall hops :: WalkTo(g, s, v, hops) ==> c <= Cost(g, add, hops)
  }

  /** `c` is the least cost of a walk from `s` to `v`, and some walk has it. */
  ghost predicate Least(g: GraphView, add: Adder, s: nat, v: nat, c: real)
    requires g.Valid()
  {
    (exists hops :: WalkTo(g, s, v, hops) && Cost(g, add, hops) == c) && NoCheaper(g, add, s, v, c)
  }

  lemma {:induction false} SearchStarts(g: GraphView, add: Adder, s: nat)
    requires g.Valid() && s < g.Count()
    ensures var dist := seq(g.Count(), i => Infinite)[s := Finite(0.0)];
      Search(g, add, s, dist, seq(g.Count(), i => 0), multiset{Item(0.0, s)}, [], 0.0)
  {
  }

  /** Once nothing is waiting, every distance is final. */
  lemma {:induction false} SearchEnds(g: GraphView, add: Adder, s: nat, dist: seq<Dist>, prev: seq<nat>, settled: seq<nat>, d: real, v: nat)
    requires g.Valid() && Grows(add) && Search(g, add, s, dist, prev, multiset{}, settled, d) && v < g.Count()
    ensures dist[v].Finite? <==> Reachable(g, s, v)
    ensures dist[v].Finite? ==> Least(g, add, s, v, dist[v].d)
  {
    forall hops | WalkTo(g, s, v, hops) ensures dist[v].Finite? && dist[v].d <= Cost(g, add, hops) {
      WalkBound(g, add, s, dist, prev, multiset{}, settled, d, hops);
    }
    if dist[v].Finite? {
      var hops := TreeWalk(g, add, s, dist, prev, settled, v);
      assert WalkTo(g, s, v, hops);
    }
  }

  /** When the target is popped its distance is final too. */
  lemma {:induction false} TargetPopped(g: GraphView, add: Adder, s: nat, dist: seq<Dist>, prev: seq<nat>, heap: multiset<Item>, settled: seq<nat>, d: real, x: Item)
    requires g.Valid() && Grows(add) && Search(g, add, s, dist, prev, heap, settled, d)
    requires x in heap && forall y :: y in heap ==> x.cost <= y.cost
    ensures x.node < g.Count() && dist[x.node].Finite? && NoCheaper(g, add, s, x.node, dist[x.node].d)
  {
    var v := x.node;
    forall hops | WalkTo(g, s, v, hops) ensures dist[v].d <= Cost(g, add, hops) {
      WalkBound(g, add, s, dist, prev, heap, settled, d, hops);
    }
  }

  lemma {:induction false} SettledCount(g: GraphView, add: Adder, s: nat, dist: seq<Dist>, prev: seq<nat>, settled: seq<nat>)
    requires g.Valid() && Tree(g, add, s, dist, prev, settled)
    ensures |settled| <= g.Count() && |dist| == |prev| == g.Count()
  {
    DistinctFit(settled, g.Count());
  }

  lemma {:induction false} PoppedInRange(g: GraphView, add: Adder, s: nat, dist: seq<Dist>, prev: seq<nat>, heap: multiset<Item>, settled: seq<nat>, d: real, x: Item)
    requires g.Valid() && Search(g, add, s, dist, prev, heap, settled, d) && x in heap
    ensures |dist| == g.Count() && x.node < g.Count() && dist[x.node].Finite?
  {
  }

  /** What one popped entry leads to: dropped when stale, otherwise settled and relaxed. */
  method Visit(g: GraphView, add: Adder, ghost s: nat, dist0: seq<Dist>, prev0: seq<nat>, heap0: multiset<Item>, x: Item,
               ghost settled0: seq<nat>, ghost d0: real)
      returns (dist: seq<Dist>, prev: seq<nat>, heap: multiset<Item>, ghost settled: seq<nat>, ghost d: real)
    requires g.Valid() && Grows(add) && Search(g, add, s, dist0, prev0, heap0, settled0, d0)
    requires x in heap0 && forall y :: y in heap0 ==> x.cost <= y.cost
    ensures Search(g, add, s, dist, prev, heap, settled, d) && |settled| <= g.Count()
    ensures |settled| > |settled0| || (settled == settled0 && |heap| < |heap0|)
  {
    hide Tree;
    hide Queue;
    hide Frontier;
    hide Relaxed;
    hide Grows;
    hide EdgeRelaxed;
    PoppedInRange(g, add, s, dist0, prev0, heap0, settled0, d0, x);
    heap := heap0 - multiset{x};
    if x.cost > dist0[x.node].d {
      DropKeeps(g, add, s, dist0, prev0, heap0, settled0, x, d0);
      dist, prev, settled, d := dist0, prev0, settled0, d0;
    } else {
      SettleKeeps(g, add, s, dist0, prev0, heap0, settled0, x, d0);
      dist, prev, heap := RelaxAll(g, add, s, dist0, prev0, heap, settled0, x.node, x.cost);
      settled, d := settled0 + [x.node], x.cost;
    }
    SettledCount(g, add, s, dist, prev, settled);
  }

  /** Single-source distances by node id; ids that cannot be reached are absent. */
  method Distances(g: GraphView, add: Adder, from: nat) returns (out: map<nat, real>)
    requires g.Valid() && Grows(add)
    ensures from !in g.ids ==> out == map[]
    ensures forall id :: id in out ==> id in g.ids
    ensures forall s, v :: 0 <= s < g.Count() && g.ids[s] == from && 0 <= v < g.Count() ==>
      && (g.ids[v] in out <==> Reachable(g, s, v))
      && (g.ids[v] in out ==> Least(g, add, s, v, out[g.ids[v]]))
  {
    hide Search;
    hide Reachable;
    hide Least;
    hide Grows;
    out := map[];
    var at := PositionOf(g.ids, from);
    if at.None? { return; }
    var s := at.value;
    SearchStarts(g, add, s);
    var dist := seq(g.Count(), i => Infinite)[s := Finite(0.0)];
    var prev: seq<nat> := seq(g.Count(), i => 0);
    var heap := multiset{Item(0.0, s)};
    ghost var settled: seq<nat>, d := [], 0.0;
    while heap != multiset{}
      invariant Search(g, add, s, dist, prev, heap, settled, d) && |settled| <= g.Count()
      decreases g.Count() - |settled|, |heap|
    {
      var x, rest := Pop(heap);
      dist, prev, heap, settled, d := Visit(g, add, s, dist, prev, heap, x, settled, d);
    }
    TreeOf(g, add, s, dist, prev, heap, settled, d);
    forall v | 0 <= v < g.Count()
      ensures (dist[v].Finite? <==> Reachable(g, s, v)) && (dist[v].Finite? ==> Least(g, add, s, v, dist[v].d))
    {
      SearchEnds(g, add, s, dist, prev, settled, d, v);
    }
    out := Published(g, dist);
  }

  /** The finite distances, keyed by node id. */
  method Published(g: GraphView, dist: seq<Dist>) returns (out: map<nat, real>)
    requires g.Valid() && |dist| == g.Count()
    ensures forall id :: id in out ==> id in g.ids
    ensures forall v :: 0 <= v < g.Count() ==>
      && (g.ids[v] in out <==> dist[v].Finite?)
      && (g.ids[v] in out ==> out[g.ids[v]] == dist[v].d)
  {
    out := map[];
    for i := 0 to |dist|
      invariant forall id :: id in out ==> id in g.ids[..i]
      invariant forall v :: 0 <= v < i ==> (g.ids[v] in out <==> dist[v].Finite?) && (g.ids[v] in out ==> out[g.ids[v]] == dist[v].d)
    {
      if dist[i].Finite? { out := out[g.ids[i] := dist[i].d]; }
    }
  }

  /** Follow predecessors back from `t`, then reverse. */
  method WalkBack(g: GraphView, add: Adder, s: nat, t: nat, dist: seq<Dist>, prev: seq<nat>, ghost settled: seq<nat>) returns (path: seq<nat>)
    requires g.Valid() && Tree(g, add, s, dist, prev, settled) && t < g.Count() && dist[t].Finite?
    ensures path == TreePath(g, add, s, dist, prev, settled, t)
  {
    hide GraphView.Valid;
    hide Tree;
    hide Parent;
    hide Reversed;
    TreeParent(g, add, s, dist, prev, settled, t);
    assert Reversed([]) == [];
    ReversedAppend([], t);
    assert [] + [t] == [t];
    ghost var below: seq<nat> := [];
    var back: seq<nat>, cur: nat := [t], t;
    while cur != s
      invariant cur < g.Count() && dist[cur].Finite?
      invariant Reversed(back) == [cur] + below
      invariant TreePath(g, add, s, dist, prev, settled, t) == TreePath(g, add, s, dist, prev, settled, cur) + below
      decreases Rank(settled, cur)
    {
      TreeParent(g, add, s, dist, prev, settled, cur);
      below := [cur] + below;
      cur := prev[cur];
      ReversedAppend(back, cur);
      back := back + [cur];
    }
    path := Reversed(back);
  }

  function Reversed(xs: seq<nat>): (r: seq<nat>)
    ensures |r| == |xs| && forall i :: 0 <= i < |xs| ==> r[i] == xs[|xs| - 1 - i]
  {
    if xs == [] then [] else Reversed(xs[1..]) + [xs[0]]
  }

  lemma {:induction false} ReversedAppend(xs: seq<nat>, x: nat)
    ensures Reversed(xs + [x]) == [x] + Reversed(xs)
  {
  }

  /** A walk as the ids it visits. */
  ghost function Route(g: GraphView, s: nat, hops: seq<Hop>): seq<nat>
    requires g.Valid() && IsWalk(g, s, hops) && s < g.Count()
  {
    NodesInRange(g, s, hops);
    Named(g, NodesOf(g, s, hops))
  }

  function Named(g: GraphView, path: seq<nat>): seq<nat>
    requires forall i :: 0 <= i < |path| ==> path[i] < |g.ids|
  {
    seq(|path|, i requires 0 <= i < |path| => g.ids[path[i]])
  }

  lemma {:induction false} NodesInRange(g: GraphView, s: nat, hops: seq<Hop>)
    requires g.Valid() && s < g.Count() && forall i :: 0 <= i < |hops| ==> IsHop(g, hops[i])
    ensures forall i :: 0 <= i < |NodesOf(g, s, hops)| ==> NodesOf(g, s, hops)[i] < g.Count()
    decreases |hops|
  {
    if hops != [] {
      var h := hops[|hops|-1];
      assert IsHop(g, h);
      ArcInRange(g, h.from, h.k);
      NodesInRange(g, s, hops[..|hops|-1]);
    }
  }

  /** The path lists, by id, where the walk starts and where each of its arcs leads. */
  ghost predicate Visits(g: GraphView, s: nat, hops: seq<Hop>, path: seq<nat>)
    requires g.Valid() && IsWalk(g, s, hops) && s < g.Count()
  {
    && |path| == |hops| + 1 && path[0] == g.ids[s]
    && forall i :: 0 <= i < |hops| ==> IsHop(g, hops[i]) && path[i] == g.ids[hops[i].from] && LeadsTo(g, hops[i], path[i + 1])
  }

  ghost predicate LeadsTo(g: GraphView, h: Hop, id: nat)
    requires g.Valid() && IsHop(g, h)
  {
    g.ArcsOf(h.from)[h.k].to < g.Count() && g.ids[g.ArcsOf(h.from)[h.k].to] == id
  }

  lemma {:induction false} NodesVisited(g: GraphView, s: nat, hops: seq<Hop>)
    requires g.Valid() && s < g.Count() && IsWalk(g, s, hops)
    ensures var ns := NodesOf(g, s, hops);
      && |ns| == |hops| + 1 && ns[0] == s && ns[|hops|] == EndOf(g, s, hops)
      && forall i :: 0 <= i < |hops| ==> IsHop(g, hops[i]) && ns[i] == hops[i].from && ns[i + 1] == g.ArcsOf(hops[i].from)[hops[i].k].to
    decreases |hops|
  {
    if hops != [] {
      var n := |hops| - 1;
      NodesVisited(g, s, hops[..n]);
      var (ns, before) := (NodesOf(g, s, hops), NodesOf(g, s, hops[..n]));
      forall i | 0 <= i < |hops| ensures IsHop(g, hops[i]) && ns[i] == hops[i].from && ns[i + 1] == g.ArcsOf(hops[i].from)[hops[i].k].to {
        if i < n {
          assert hops[..n][i] == hops[i];
        } else {
          assert IsHop(g, hops[n]);
        }
      }
    }
  }

  lemma {:induction false} RouteVisits(g: GraphView, s: nat, hops: seq<Hop>)
    requires g.Valid() && s < g.Count() && IsWalk(g, s, hops)
    ensures Visits(g, s, hops, Route(g, s, hops))
  {
    NodesInRange(g, s, hops);
    NodesVisited(g, s, hops);
    hide NodesOf;
    hide EndOf;
  }

  /** What a returned path must be: a real walk with the reported cost, none cheaper. */
  ghost predicate BestRoute(g: GraphView, add: Adder, s: nat, t: nat, path: seq<nat>, cost: real)
    requires g.Valid() && s < g.Count()
  {
    && (exists hops :: WalkTo(g, s, t, hops) && Visits(g, s, hops, path) && Cost(g, add, hops) == cost)
    && NoCheaper(g, add, s, t, cost)
  }

  lemma {:induction false} TreeRoute(g: GraphView, add: Adder, s: nat, t: nat, dist: seq<Dist>, prev: seq<nat>, settled: seq<nat>)
    requires g.Valid() && Tree(g, add, s, dist, prev, settled) && t < g.Count() && dist[t].Finite? && NoCheaper(g, add, s, t, dist[t].d)
    ensures var path := TreePath(g, add, s, dist, prev, settled, t);
      (forall i :: 0 <= i < |path| ==> path[i] < |g.ids|) && BestRoute(g, add, s, t, Named(g, path), dist[t].d)
    ensures Reachable(g, s, t)
  {
    assert s < g.Count();
    hide GraphView.Valid;
    hide Tree;
    hide NoCheaper;
    var hops := TreeWalk(g, add, s, dist, prev, settled, t);
    NodesInRange(g, s, hops);
    assert WalkTo(g, s, t, hops);
    assert Route(g, s, hops) == Named(g, TreePath(g, add, s, dist, prev, settled, t));
    RouteVisits(g, s, hops);
  }

  /** The cheapest path between two ids with its cost, or nothing when an id is
      unknown or the target cannot be reached. */
  method WeightedShortestPath(g: GraphView, add: Adder, from: nat, to: nat) returns (r: Option<(seq<nat>, real)>)
    requires g.Valid() && Grows(add)
    ensures from !in g.ids || to !in g.ids ==> r == None
    ensures forall s, t :: 0 <= s < g.Count() && 0 <= t < g.Count() && g.ids[s] == from && g.ids[t] == to ==>
      && (r.None? <==> !Reachable(g, s, t))
      && (r.Some? ==> BestRoute(g, add, s, t, r.value.0, r.value.1))
  {
    hide Search;
    hide Tree;
    hide Reachable;
    hide NoCheaper;
    hide BestRoute;
    hide Grows;
    var (at, goal) := (PositionOf(g.ids, from), PositionOf(g.ids, to));
    if at.None? || goal.None? { return None; }
    var (s, t) := (at.value, goal.value);
    SearchStarts(g, add, s);
    var dist := seq(g.Count(), i => Infinite)[s := Finite(0.0)];
    var prev: seq<nat> := seq(g.Count(), i => 0);
    var heap := multiset{Item(0.0, s)};
    ghost var settled: seq<nat>, d := [], 0.0;
    while heap != multiset{}
      invariant Search(g, add, s, dist, prev, heap, settled, d) && |settled| <= g.Count()
      decreases g.Count() - |settled|, |heap|
    {
      var x, rest := Pop(heap);
      if x.node == t {
        TargetPopped(g, add, s, dist, prev, heap, settled, d, x);
        break;
      }
      dist, prev, heap, settled, d := Visit(g, add, s, dist, prev, heap, x, settled, d);
    }
    TreeOf(g, add, s, dist, prev, heap, settled, d);
    if heap == multiset{} {
      SearchEnds(g, add, s, dist, prev, settled, d, t);
    }
    if dist[t].Infinite? { return None; }
    var path := WalkBack(g, add, s, t, dist, prev, settled);
    TreeRoute(g, add, s, t, dist, prev, settled);
    r := Some((Named(g, path), dist[t].d));
  }

  lemma {:induction false} TreeOf(g: GraphView, add: Adder, s: nat, dist: seq<Dist>, prev: seq<nat>, heap: multiset<Item>, settled: seq<nat>, d: real)
    requires g.Valid() && Search(g, add, s, dist, prev, heap, settled, d)
    ensures Tree(g, add, s, dist, prev, settled) && |dist| == |prev| == g.Count()
  {
  }
}
