/** Weakly connected components by union-find with path halving and no ranks
    (src/graph.rs:348-376). */
module UnionFind {
  import opened Graph

  /** `uf` is a forest: `root` names the representative above each node, and
      `height` grows along every parent link, so no link closes a cycle. */
  ghost predicate Forest(uf: seq<nat>, root: seq<nat>, height: seq<nat>, top: nat) {
    && |uf| == |root| == |height|
    && (forall x :: 0 <= x < |uf| ==> uf[x] < |uf|)
    && (forall x :: 0 <= x < |uf| ==> Hangs(uf, root, height, top, x))
  }

  /** One node: its parent has the same representative, which is its own parent. */
  ghost predicate Hangs(uf: seq<nat>, root: seq<nat>, height: seq<nat>, top: nat, x: nat)
    requires |uf| == |root| == |height| && x < |uf|
  {
    && uf[x] < |uf| && root[x] < |uf| && height[x] <= top
    && root[uf[x]] == root[x] && uf[root[x]] == root[x]
    && if uf[x] == x then root[x] == x else height[x] < height[uf[x]]
  }

  /** The node reached after following the parent link `k` times. */
  ghost function Climb(uf: seq<nat>, x: nat, k: nat): (r: nat)
    requires x < |uf| && forall y :: 0 <= y < |uf| ==> uf[y] < |uf|
    ensures r < |uf|
    decreases k
  {
    if k == 0 then x else Climb(uf, uf[x], k - 1)
  }

  /** The representative is where the parent links lead, and nothing else is. */
  lemma {:induction false} RootIsTop(uf: seq<nat>, root: seq<nat>, height: seq<nat>, top: nat, x: nat)
    requires Forest(uf, root, height, top) && x < |uf|
    ensures exists k: nat :: Climb(uf, x, k) == root[x]
    ensures forall k: nat :: uf[Climb(uf, x, k)] == Climb(uf, x, k) ==> Climb(uf, x, k) == root[x]
    decreases top - height[x]
  {
    assert Hangs(uf, root, height, top, x);
    if uf[x] == x {
      assert Climb(uf, x, 0) == root[x];
    } else {
      assert Hangs(uf, root, height, top, uf[x]);
      RootIsTop(uf, root, height, top, uf[x]);
      var k: nat :| Climb(uf, uf[x], k) == root[uf[x]];
      assert Climb(uf, x, k + 1) == root[x];
    }
    forall k: nat | uf[Climb(uf, x, k)] == Climb(uf, x, k) ensures Climb(uf, x, k) == root[x] {
      ClimbKeepsRoot(uf, root, height, top, x, k);
      assert Hangs(uf, root, height, top, Climb(uf, x, k));
    }
  }

  lemma {:induction false} ClimbKeepsRoot(uf: seq<nat>, root: seq<nat>, height: seq<nat>, top: nat, x: nat, k: nat)
    requires Forest(uf, root, height, top) && x < |uf|
    ensures Climb(uf, x, k) < |uf| && root[Climb(uf, x, k)] == root[x]
    decreases k
  {
    assert Hangs(uf, root, height, top, x);
    if k > 0 { ClimbKeepsRoot(uf, root, height, top, uf[x], k - 1); }
  }

  /** `find` with path halving: same forest, same roots. */
  method Find(uf: array<nat>, x: nat, ghost root: seq<nat>, ghost height: seq<nat>, ghost top: nat) returns (r: nat)
    requires x < uf.Length && Forest(uf[..], root, height, top)
    modifies uf
    ensures Forest(uf[..], root, height, top)
    ensures r < uf.Length && r == root[x] && uf[r] == r
  {
    r := x;
    assert Hangs(uf[..], root, height, top, x);
    while uf[r] != r
      invariant r < uf.Length && Hangs(uf[..], root, height, top, r) && root[r] == root[x]
      invariant Forest(uf[..], root, height, top)
      decreases top - height[r]
    {
      Halved(uf[..], root, height, top, r);
      ghost var halved := uf[..][r := uf[uf[r]]];
      uf[r] := uf[uf[r]];
      assert uf[..] == halved;
      r := uf[r];
      assert Hangs(uf[..], root, height, top, r);
    }
  }

  lemma {:induction false} Halved(uf: seq<nat>, root: seq<nat>, height: seq<nat>, top: nat, x: nat)
    requires Forest(uf, root, height, top) && x < |uf| && uf[x] != x
    ensures Forest(uf[x := uf[uf[x]]], root, height, top)
    ensures uf[uf[x]] < |uf| && height[x] < height[uf[uf[x]]] && root[uf[uf[x]]] == root[x]
  {
    assert Hangs(uf, root, height, top, x);
    assert Hangs(uf, root, height, top, uf[x]);
    assert Hangs(uf, root, height, top, uf[uf[x]]);
    var halved := uf[x := uf[uf[x]]];
    forall y | 0 <= y < |uf| ensures Hangs(halved, root, height, top, y) {
      assert Hangs(uf, root, height, top, y);
    }
  }

  // ---- linking -------------------------------------------------------------

  ghost function Joined(root: seq<nat>, a: nat, b: nat): seq<nat> {
    seq(|root|, x requires 0 <= x < |root| => if root[x] == a then b else root[x])
  }

  ghost function Raised(height: seq<nat>, a: nat, b: nat): seq<nat>
    requires a < |height| && b < |height|
  {
    height[b := (if height[a] < height[b] then height[b] else height[a]) + 1]
  }

  lemma {:induction false} Linked(uf: seq<nat>, root: seq<nat>, height: seq<nat>, top: nat, a: nat, b: nat)
    requires Forest(uf, root, height, top) && a < |uf| && b < |uf| && uf[a] == a && uf[b] == b && a != b
    ensures Forest(uf[a := b], Joined(root, a, b), Raised(height, a, b), top + 1)
  {
    var (uf', root', height') := (uf[a := b], Joined(root, a, b), Raised(height, a, b));
    assert Hangs(uf, root, height, top, a) && Hangs(uf, root, height, top, b);
    var top' := top + 1;
    forall y | 0 <= y < |uf| ensures Hangs(uf', root', height', top', y) {
      assert Hangs(uf, root, height, top, y);
    }
  }

  // ---- what the roots mean -------------------------------------------------

  lemma {:induction false} ReachBack(adj: Lists, u: nat, v: nat)
    requires Symmetric(adj) && Reach(adj, u, v)
    ensures Reach(adj, v, u)
  {
    var p :| IsPath(adj, p, u, v);
    var q: seq<nat> := seq(|p|, i requires 0 <= i < |p| => p[|p| - 1 - i]);
    forall i | 0 <= i < |q| - 1 ensures Edge(adj, q[i], q[i+1]) {
      var j := |p| - 2 - i;
      assert Edge(adj, p[j], p[j+1]);
    }
    assert IsPath(adj, q, v, u);
  }

  /** Every node is connected to its representative. */
  ghost predicate Sound(adj: Lists, root: seq<nat>) {
    |root| == |adj| && forall x :: 0 <= x < |root| ==> Reach(adj, x, root[x])
  }

  lemma {:induction false} SoundRoots(adj: Lists, root: seq<nat>, x: nat, y: nat)
    requires Symmetric(adj) && Sound(adj, root) && x < |root| && y < |root| && root[x] == root[y]
    ensures Reach(adj, x, y)
  {
    ReachBack(adj, y, root[y]);
    ReachTrans(adj, x, root[x], y);
  }

  lemma {:induction false} JoinSound(adj: Lists, root: seq<nat>, u: nat, v: nat)
    requires Symmetric(adj) && Sound(adj, root) && Edge(adj, u, v)
    ensures Sound(adj, Joined(root, root[u], root[v]))
  {
    var joined := Joined(root, root[u], root[v]);
    forall x | 0 <= x < |root| ensures Reach(adj, x, joined[x]) {
      if root[x] == root[u] {
        SoundRoots(adj, root, x, u);
        ReachEdge(adj, u, v);
        ReachTrans(adj, x, u, v);
        ReachTrans(adj, x, v, root[v]);
      }
    }
  }

  /** Once every edge joins equal roots, so does every path. */
  lemma {:induction false} PathSharesRoot(adj: Lists, root: seq<nat>, p: seq<nat>, u: nat, v: nat)
    requires |root| == |adj| && IsPath(adj, p, u, v)
    requires forall a: nat, b: nat :: Edge(adj, a, b) ==> root[a] == root[b]
    ensures root[u] == root[v]
    decreases |p|
  {
    if |p| > 1 {
      var q := p[1..];
      assert Edge(adj, p[0], p[0+1]);
      forall i | 0 <= i < |q| - 1 ensures Edge(adj, q[i], q[i+1]) { assert Edge(adj, p[i+1], p[i+1+1]); }
      assert IsPath(adj, q, p[1], v);
      PathSharesRoot(adj, root, q, p[1], v);
    }
  }

  // ---- the two passes ------------------------------------------------------

  /** Edges read so far join equal roots: all of nodes below `u`, and `k` of `u`. */
  ghost predicate Merged(g: GraphView, root: seq<nat>, u: nat, k: nat)
    requires g.Valid()
  {
    && |root| == g.Count()
    && (forall a, i :: 0 <= a < u && a < g.Count() && 0 <= i < |g.Out(a)| && g.Out(a)[i] < g.Count() ==> root[a] == root[g.Out(a)[i]])
    && (forall i :: u < g.Count() && 0 <= i < k && i < |g.Out(u)| && g.Out(u)[i] < g.Count() ==> root[u] == root[g.Out(u)[i]])
  }

  lemma {:induction false} JoinMerged(g: GraphView, root: seq<nat>, u: nat, k: nat)
    requires g.Valid() && u < g.Count() && k < |g.Out(u)| && g.Out(u)[k] < g.Count() && Merged(g, root, u, k)
    requires root[u] < |root| && root[root[u]] == root[u] && root[g.Out(u)[k]] < |root|
    ensures Merged(g, Joined(root, root[u], root[g.Out(u)[k]]), u, k + 1)
    ensures root[u] == root[g.Out(u)[k]] ==> Merged(g, root, u, k + 1)
  {
    hide GraphView.Valid;
  }

  lemma {:induction false} NextNode(g: GraphView, root: seq<nat>, u: nat)
    requires g.Valid() && u < g.Count() && Merged(g, root, u, |g.Out(u)|)
    ensures Merged(g, root, u + 1, 0)
  {
  }

  lemma {:induction false} RootsAreComponents(g: GraphView, root: seq<nat>, x: nat, y: nat)
    requires g.Valid() && Sound(Undirected(g), root) && Merged(g, root, g.Count(), 0) && x < g.Count() && y < g.Count()
    ensures root[x] == root[y] <==> Reach(Undirected(g), x, y)
  {
    var adj := Undirected(g);
    UndirectedEdges(g);
    if root[x] == root[y] {
      SoundRoots(adj, root, x, y);
    }
    if Reach(adj, x, y) {
      forall a: nat, b: nat | Edge(adj, a, b) ensures root[a] == root[b] {
        var (s, t) := if b in g.Out(a) then (a, b) else (b, a);
        var i :| 0 <= i < |g.Out(s)| && g.Out(s)[i] == t;
      }
      var p :| IsPath(adj, p, x, y);
      PathSharesRoot(adj, root, p, x, y);
    }
  }

  /** Join the two ends of out-edge `k` of `u`. */
  method Union(g: GraphView, uf: array<nat>, u: nat, k: nat, ghost root0: seq<nat>, ghost height0: seq<nat>, ghost top0: nat)
      returns (ghost root: seq<nat>, ghost height: seq<nat>, ghost top: nat)
    requires g.Valid() && u < g.Count() == uf.Length && k < |g.Out(u)|
    requires Forest(uf[..], root0, height0, top0) && Sound(Undirected(g), root0) && Merged(g, root0, u, k)
    modifies uf
    ensures Forest(uf[..], root, height, top) && Sound(Undirected(g), root) && Merged(g, root, u, k + 1)
  {
    EdgeOk(g, u, k);
    assert Hangs(uf[..], root0, height0, top0, u) && Hangs(uf[..], root0, height0, top0, g.Out(u)[k]);
    assert Hangs(uf[..], root0, height0, top0, root0[u]);
    JoinMerged(g, root0, u, k);
    JoinSound(Undirected(g), root0, u, g.Out(u)[k]);
    hide GraphView.Valid;
    hide Sound;
    hide Merged;
    hide Undirected;
    var v := g.Out(u)[k];
    var ru := Find(uf, u, root0, height0, top0);
    var rv := Find(uf, v, root0, height0, top0);
    assert Hangs(uf[..], root0, height0, top0, u);
    root, height, top := root0, height0, top0;
    if ru != rv {
      Linked(uf[..], root0, height0, top0, ru, rv);
      ghost var linked := uf[..][ru := rv];
      uf[ru] := rv;
      assert uf[..] == linked;
      root, height, top := Joined(root0, ru, rv), Raised(height0, ru, rv), top0 + 1;
    }
  }

  lemma {:induction false} EdgeOk(g: GraphView, u: nat, k: nat)
    requires g.Valid() && u < g.Count() && k < |g.Out(u)|
    ensures g.Out(u)[k] < g.Count() && Edge(Undirected(g), u, g.Out(u)[k]) && Symmetric(Undirected(g))
  {
    UndirectedEdges(g);
    assert g.Out(u)[k] in g.Out(u);
  }

  method Unite(g: GraphView) returns (uf: array<nat>, ghost root: seq<nat>, ghost height: seq<nat>, ghost top: nat)
    requires g.Valid()
    ensures fresh(uf) && uf.Length == g.Count()
    ensures Forest(uf[..], root, height, top)
    ensures Sound(Undirected(g), root) && Merged(g, root, g.Count(), 0)
  {
    var n := g.Count();
    uf := new nat[n](i => i);
    root, height, top := seq(n, i => i), seq(n, i => 0), 0;
    assert uf[..] == root;
    Alone(g, root);
    hide GraphView.Valid;
    hide Sound;
    hide Merged;
    hide Undirected;
    for u := 0 to n
      invariant Forest(uf[..], root, height, top) && Sound(Undirected(g), root) && Merged(g, root, u, 0)
    {
      var out := g.Out(u);
      for k := 0 to |out|
        invariant Forest(uf[..], root, height, top) && Sound(Undirected(g), root) && Merged(g, root, u, k)
      {
        root, height, top := Union(g, uf, u, k, root, height, top);
      }
      NextNode(g, root, u);
    }
  }

  lemma {:induction false} Alone(g: GraphView, root: seq<nat>)
    requires g.Valid() && root == seq(g.Count(), i => i)
    ensures Sound(Undirected(g), root) && Merged(g, root, 0, 0)
    ensures |Undirected(g)| == g.Count()
  {
    forall x | 0 <= x < |root| ensures Reach(Undirected(g), x, root[x]) { ReachSelf(Undirected(g), x); }
  }

  /** Every names below `k` is in use, and no other. */
  ghost predicate Dense(out: map<nat, nat>, k: nat) {
    && (forall id :: id in out ==> out[id] < k)
    && (forall l: nat :: l < k ==> Used(out, l))
  }

  ghost predicate Used(out: map<nat, nat>, l: nat) { exists id :: id in out && out[id] == l }

  /** Labels handed out so far: one per root met, in order of first meeting. */
  ghost predicate Labelled(ids: seq<nat>, root: seq<nat>, names: map<nat, nat>, out: map<nat, nat>, i: nat)
    requires i <= |ids| == |root|
  {
    && (forall id :: id in out <==> id in ids[..i])
    && (forall j :: 0 <= j < i ==> root[j] in names && ids[j] in out && out[ids[j]] == names[root[j]])
    && Distinctly(names) && Dense(out, |names|)
  }

  /** Different roots have different labels, all below the number of roots. */
  ghost predicate Distinctly(names: map<nat, nat>) {
    && (forall r, s :: r in names && s in names && names[r] == names[s] ==> r == s)
    && (forall r :: r in names ==> names[r] < |names|)
  }

  lemma {:induction false} NameNext(names: map<nat, nat>, r: nat)
    requires Distinctly(names) && r !in names
    ensures |names[r := |names|]| == |names| + 1 && Distinctly(names[r := |names|])
  {
    var names' := names[r := |names|];
    assert names'.Keys == names.Keys + {r};
  }

  lemma {:induction false} DenseNext(out: map<nat, nat>, k: nat, id: nat, l: nat)
    requires Dense(out, k) && id !in out && l <= k
    ensures Dense(out[id := l], if l < k then k else k + 1)
  {
    var out' := out[id := l];
    forall m: nat | m < (if l < k then k else k + 1) ensures Used(out', m) {
      if m == k {
        assert id in out' && out'[id] == m;
      } else {
        assert Used(out, m);
        var x :| x in out && out[x] == m;
        assert x in out' && out'[x] == m;
      }
    }
  }

  lemma {:induction false} NamesBelow(names: map<nat, nat>, r: nat)
    requires Distinctly(names) && r in names
    ensures names[r] < |names|
  {
  }

  lemma {:induction false} LabelNext(ids: seq<nat>, root: seq<nat>, names: map<nat, nat>, out: map<nat, nat>, i: nat)
    requires i < |ids| == |root| && Labelled(ids, root, names, out, i)
    requires forall a, b :: 0 <= a < b < |ids| ==> ids[a] != ids[b]
    ensures var names' := if root[i] in names then names else names[root[i] := |names|];
      Labelled(ids, root, names', out[ids[i] := names'[root[i]]], i + 1)
  {
    hide Distinctly;
    var names' := if root[i] in names then names else names[root[i] := |names|];
    assert ids[..i+1] == ids[..i] + [ids[i]];
    assert ids[i] !in out;
    if root[i] !in names { NameNext(names, root[i]); }
    NamesBelow(names', root[i]);
    hide Dense;
    DenseNext(out, |names|, ids[i], names'[root[i]]);
  }

  /** The relabelling pass: a fresh small label for each root first met. */
  method Relabel(ids: seq<nat>, uf: array<nat>, ghost root: seq<nat>, ghost height: seq<nat>, ghost top: nat)
      returns (out: map<nat, nat>, ghost names: map<nat, nat>)
    requires |ids| == uf.Length == |root| && Forest(uf[..], root, height, top)
    requires forall a, b :: 0 <= a < b < |ids| ==> ids[a] != ids[b]
    modifies uf
    ensures Labelled(ids, root, names, out, |ids|)
  {
    hide Labelled;
    hide Forest;
    var labels: map<nat, nat> := map[];
    out, names := map[], map[];
    NoLabels(ids, root);
    for i := 0 to |ids|
      invariant Forest(uf[..], root, height, top)
      invariant labels == names && Labelled(ids, root, names, out, i)
    {
      LabelNext(ids, root, names, out, i);
      var r := Find(uf, i, root, height, top);
      if r !in labels { labels := labels[r := |labels|]; }
      out := out[ids[i] := labels[r]];
      names := labels;
    }
  }

  lemma {:induction false} NoLabels(ids: seq<nat>, root: seq<nat>)
    requires |ids| == |root|
    ensures Labelled(ids, root, map[], map[], 0)
  {
  }

  lemma {:induction false} LabelsMatchRoots(ids: seq<nat>, root: seq<nat>, names: map<nat, nat>, out: map<nat, nat>)
    requires |ids| == |root| && Labelled(ids, root, names, out, |ids|)
    ensures forall id :: id in out <==> id in ids
    ensures forall x, y :: 0 <= x < |ids| && 0 <= y < |ids| ==> (out[ids[x]] == out[ids[y]] <==> root[x] == root[y])
    ensures Dense(out, |names|)
  {
    hide Dense;
    assert ids[..|ids|] == ids;
  }

  /** Component labels by node id: alike exactly when weakly connected, dense from 0. */
  method ConnectedComponents(g: GraphView) returns (out: map<nat, nat>)
    requires g.Valid()
    ensures forall id :: id in out <==> id in g.ids
    ensures forall x, y :: 0 <= x < g.Count() && 0 <= y < g.Count() ==>
      (out[g.ids[x]] == out[g.ids[y]] <==> Reach(Undirected(g), x, y))
    ensures exists k :: Dense(out, k)
  {
    assert forall a, b :: 0 <= a < b < |g.ids| ==> g.ids[a] != g.ids[b];
    hide *;
    var uf, root, height, top := Unite(g);
    SizesMatch(uf[..], root, height, top);
    forall x, y | 0 <= x < g.Count() && 0 <= y < g.Count() ensures root[x] == root[y] <==> Reach(Undirected(g), x, y) {
      RootsAreComponents(g, root, x, y);
    }
    ghost var names;
    out, names := Relabel(g.ids, uf, root, height, top);
    LabelsMatchRoots(g.ids, root, names, out);
  }

  lemma {:induction false} SizesMatch(uf: seq<nat>, root: seq<nat>, height: seq<nat>, top: nat)
    requires Forest(uf, root, height, top)
    ensures |root| == |uf|
  {
  }
}
