/** Kosaraju's strongly connected components: two iterative depth-first passes
    (src/graph.rs:412-471). */
module Scc {
  import opened Graph

  ghost function Members(xs: seq<nat>): set<nat> { set x | x in xs }

  ghost predicate NoDup(xs: seq<nat>) { forall i, j :: 0 <= i < j < |xs| ==> xs[i] != xs[j] }

  lemma {:induction false} MembersAppend(xs: seq<nat>, x: nat)
    ensures Members(xs + [x]) == Members(xs) + {x}
    ensures NoDup(xs) && x !in Members(xs) ==> NoDup(xs + [x])
  {
  }

  lemma {:induction false} MembersButLast(xs: seq<nat>)
    requires xs != [] && NoDup(xs)
    ensures var (front, x) := (xs[..|xs|-1], xs[|xs|-1]);
      Members(xs) == Members(front) + {x} && x !in Members(front) && NoDup(front)
  {
    var (front, x) := (xs[..|xs|-1], xs[|xs|-1]);
    assert xs == front + [x];
    MembersAppend(front, x);
  }

  // ---- pass 1: a finish order ----------------------------------------------

  /** A finished node that gets to `x` through finished nodes is reachable back from `x`. */
  ghost predicate Returns(g: Lists, finished: set<nat>, b: nat, x: nat) {
    ReachVia(g, finished, b, x) ==> Reach(g, x, b)
  }

  /** What makes a finish order usable: whoever gets to `order[i]` through earlier
      nodes is reached back from it. */
  ghost predicate GoodOrder(g: Lists, order: seq<nat>) {
    forall i, j :: 0 <= j < i < |order| ==> Returns(g, Members(order[..i]), order[j], order[i])
  }

  /** Nodes seen are the finished ones plus the active path, each once. */
  ghost predicate Split(g: Lists, seen: set<nat>, order: seq<nat>, path: seq<nat>) {
    && NoDup(order) && NoDup(path) && Members(order) !! Members(path)
    && seen == Members(order) + Members(path)
    && forall v :: v in seen ==> v < |g|
  }

  ghost predicate Closed(g: Lists, seen: set<nat>, order: seq<nat>) {
    forall b, v :: b in Members(order) && b < |g| && v in g[b] ==> v in seen
  }

  ghost predicate Chain(g: Lists, path: seq<nat>) {
    forall j :: 0 <= j < |path| - 1 ==> Edge(g, path[j], path[j+1])
  }

  ghost predicate Back(g: Lists, order: seq<nat>, path: seq<nat>) {
    forall b, x :: b in Members(order) && x in Members(path) ==> Returns(g, Members(order), b, x)
  }

  ghost predicate Dfs(g: Lists, seen: set<nat>, order: seq<nat>, path: seq<nat>) {
    && Split(g, seen, order, path) && Closed(g, seen, order) && Chain(g, path)
    && Back(g, order, path) && GoodOrder(g, order)
  }

  lemma {:induction false} PathReachesTop(g: Lists, path: seq<nat>, j: nat)
    requires Chain(g, path) && j < |path| && forall i :: 0 <= i < |path| ==> path[i] < |g|
    ensures Reach(g, path[j], path[|path|-1])
    decreases |path| - j
  {
    if j == |path| - 1 {
      ReachSelf(g, path[j]);
    } else {
      PathReachesTop(g, path, j + 1);
      ReachEdge(g, path[j], path[j+1]);
      ReachTrans(g, path[j], path[j+1], path[|path|-1]);
    }
  }

  /** Descending into a node not seen before. */
  lemma {:induction false} PushKeeps(g: Lists, seen: set<nat>, order: seq<nat>, path: seq<nat>, v: nat)
    requires Dfs(g, seen, order, path) && v < |g| && v !in seen
    requires path != [] ==> Edge(g, path[|path|-1], v)
    ensures Dfs(g, seen + {v}, order, path + [v])
  {
    MembersAppend(path, v);
    forall b, x | b in Members(order) && x in Members(path + [v]) ensures Returns(g, Members(order), b, x) {
      if x == v && ReachVia(g, Members(order), b, v) {
        var y := ViaLastEdge(g, Members(order), b, v);
        assert false;
      }
    }
    hide Returns;
    hide Edge;
    forall j | 0 <= j < |path| ensures Edge(g, (path + [v])[j], (path + [v])[j+1]) {
      if j < |path| - 1 { assert Edge(g, path[j], path[j+1]); }
    }
  }

  /** Finishing the end of the path, all of whose successors have been seen. */
  lemma {:induction false} PopKeeps(g: Lists, seen: set<nat>, order: seq<nat>, path: seq<nat>)
    requires Dfs(g, seen, order, path) && path != []
    requires path[|path|-1] < |g| && forall v :: v in g[path[|path|-1]] ==> v in seen
    ensures Dfs(g, seen, order + [path[|path|-1]], path[..|path|-1])
  {
    var (front, u) := (path[..|path|-1], path[|path|-1]);
    MembersButLast(path);
    MembersAppend(order, u);
    forall b, x | b in Members(order + [u]) && x in Members(front) ensures Returns(g, Members(order + [u]), b, x) {
      var j :| 0 <= j < |front| && front[j] == x;
      assert forall i :: 0 <= i < |path| ==> path[i] in Members(path);
      PathReachesTop(g, path, j);
      FinishReturns(g, Members(order), u, b, x);
    }
    assert Back(g, order + [u], front);
    hide Back;
    PopOrder(g, order, u);
  }

  lemma {:induction false} PopOrder(g: Lists, order: seq<nat>, u: nat)
    requires GoodOrder(g, order) && forall b :: b in Members(order) ==> Returns(g, Members(order), b, u)
    ensures GoodOrder(g, order + [u])
  {
    hide Returns;
    var order' := order + [u];
    forall i, j | 0 <= j < i < |order'| ensures Returns(g, Members(order'[..i]), order'[j], order'[i]) {
      if i == |order| {
        assert order'[..i] == order;
      } else {
        assert order'[..i] == order[..i];
      }
    }
  }

  /** Any node still active reaches the one being finished, hence everything that
      got to either through finished nodes. */
  lemma {:induction false} FinishReturns(g: Lists, finished: set<nat>, u: nat, b: nat, x: nat)
    requires Reach(g, x, u)
    requires b != u ==> Returns(g, finished, b, u) && Returns(g, finished, b, x)
    ensures Returns(g, finished + {u}, b, x)
  {
    if ReachVia(g, finished + {u}, b, x) && b != u {
      ViaMore(g, finished, u, b, x);
      if ReachVia(g, finished, b, u) {
        ReachTrans(g, x, u, b);
      }
    }
  }

  ghost function SeenSet(visited: seq<bool>): set<nat> {
    set v: nat | v < |visited| && visited[v]
  }

  lemma {:induction false} SeenUpdate(visited: seq<bool>, v: nat)
    requires v < |visited|
    ensures SeenSet(visited[v := true]) == SeenSet(visited) + {v}
  {
  }

  ghost function Upto(n: nat): (r: set<nat>)
    ensures forall v: nat :: v in r <==> v < n
    ensures |r| == n
  {
    if n == 0 then {} else Upto(n - 1) + {n - 1}
  }

  lemma {:induction false} SeenCard(visited: seq<bool>)
    ensures |SeenSet(visited)| <= |visited|
  {
    Subset(SeenSet(visited), Upto(|visited|));
  }

  lemma {:induction false} Subset(a: set<nat>, b: set<nat>)
    requires a <= b
    ensures |a| <= |b|
  {
    assert b == a + (b - a);
  }

  lemma {:induction false} NoDupCard(xs: seq<nat>)
    requires NoDup(xs)
    ensures |Members(xs)| == |xs|
  {
    if xs != [] {
      MembersButLast(xs);
      NoDupCard(xs[..|xs|-1]);
    }
  }

  /** Each stack entry's cursor: successors before it have been seen. */
  ghost predicate CursorOk(g: Lists, seen: set<nat>, u: nat, e: (nat, nat)) {
    e.0 == u && u < |g| && e.1 <= |g[u]| && forall k :: 0 <= k < e.1 ==> g[u][k] in seen
  }

  ghost predicate Cursors(g: Lists, seen: set<nat>, path: seq<nat>, stack: seq<(nat, nat)>) {
    |stack| == |path| && forall j :: 0 <= j < |stack| ==> CursorOk(g, seen, path[j], stack[j])
  }

  lemma {:induction false} CursorsGrow(g: Lists, seen: set<nat>, more: set<nat>, path: seq<nat>, stack: seq<(nat, nat)>)
    requires Cursors(g, seen, path, stack) && seen <= more
    ensures Cursors(g, more, path, stack)
  {
    forall j | 0 <= j < |stack| ensures CursorOk(g, more, path[j], stack[j]) {
      assert CursorOk(g, seen, path[j], stack[j]);
    }
  }

  lemma {:induction false} CursorsAdvance(g: Lists, seen: set<nat>, path: seq<nat>, stack: seq<(nat, nat)>)
    requires Cursors(g, seen, path, stack) && stack != []
    requires var (u, i) := stack[|stack|-1]; u < |g| && i < |g[u]| && g[u][i] in seen
    ensures var (u, i) := stack[|stack|-1]; Cursors(g, seen, path, stack[|stack|-1 := (u, i + 1)])
  {
    var t := |stack| - 1;
    assert CursorOk(g, seen, path[t], stack[t]);
    var stack' := stack[t := (stack[t].0, stack[t].1 + 1)];
    forall j | 0 <= j < |stack| ensures CursorOk(g, seen, path[j], stack'[j]) {
      assert CursorOk(g, seen, path[j], stack[j]);
    }
  }

  /** How much of the search is left: unseen nodes, unfinished nodes, unread successors. */
  ghost function Unseen(visited: seq<bool>): nat {
    SeenCard(visited);
    |visited| - |SeenSet(visited)|
  }

  lemma {:induction false} UnseenShrinks(visited: seq<bool>, v: nat)
    requires v < |visited| && !visited[v]
    ensures Unseen(visited[v := true]) < Unseen(visited)
  {
    SeenUpdate(visited, v);
  }

  lemma {:induction false} OrderFits(g: Lists, seen: set<nat>, order: seq<nat>, path: seq<nat>)
    requires Split(g, seen, order, path)
    ensures |order| <= |g|
    ensures path != [] ==> |order| < |g|
  {
    NoDupCard(order);
    Subset(Members(order), Upto(|g|));
    if path != [] {
      assert path[0] in Members(path) && path[0] < |g|;
      Subset(Members(order) + {path[0]}, Upto(|g|));
    }
  }

  /** The three moves of the loop body, on the top of the stack. */
  lemma {:induction false} TopFacts(g: Lists, seen: set<nat>, order: seq<nat>, path: seq<nat>, stack: seq<(nat, nat)>)
    requires Dfs(g, seen, order, path) && Cursors(g, seen, path, stack) && stack != []
    ensures var (u, i) := stack[|stack|-1];
      && path != [] && u == path[|path|-1] && u < |g| && i <= |g[u]|
      && (i == |g[u]| ==> forall v :: v in g[u] ==> v in seen)
  {
    assert CursorOk(g, seen, path[|path|-1], stack[|stack|-1]);
  }

  lemma {:induction false} DescendKeeps(g: Lists, visited: seq<bool>, order: seq<nat>, path: seq<nat>, stack: seq<(nat, nat)>)
    requires InRange(g) && |visited| == |g| && Dfs(g, SeenSet(visited), order, path) && Cursors(g, SeenSet(visited), path, stack) && stack != []
    requires var (u, i) := stack[|stack|-1]; u < |g| && i < |g[u]| && !visited[g[u][i]]
    ensures var (u, i) := stack[|stack|-1];
      var (v, visited') := (g[u][i], visited[g[u][i] := true]);
      && Dfs(g, SeenSet(visited'), order, path + [v])
      && Cursors(g, SeenSet(visited'), path + [v], stack[|stack|-1 := (u, i + 1)] + [(v, 0)])
      && Unseen(visited') < Unseen(visited) && SeenSet(visited) <= SeenSet(visited')
  {
    var (u, i) := stack[|stack|-1];
    var v := g[u][i];
    TopFacts(g, SeenSet(visited), order, path, stack);
    SeenUpdate(visited, v);
    UnseenShrinks(visited, v);
    PushKeeps(g, SeenSet(visited), order, path, v);
    hide Dfs;
    CursorsGrow(g, SeenSet(visited), SeenSet(visited[v := true]), path, stack);
    CursorsAdvance(g, SeenSet(visited[v := true]), path, stack);
  }

  lemma {:induction false} FinishKeeps(g: Lists, seen: set<nat>, order: seq<nat>, path: seq<nat>, stack: seq<(nat, nat)>)
    requires Dfs(g, seen, order, path) && Cursors(g, seen, path, stack) && stack != []
    requires var (u, i) := stack[|stack|-1]; u < |g| && i >= |g[u]|
    ensures path != [] && Dfs(g, seen, order + [stack[|stack|-1].0], path[..|path|-1])
    ensures Cursors(g, seen, path[..|path|-1], stack[..|stack|-1])
  {
    TopFacts(g, seen, order, path, stack);
    PopKeeps(g, seen, order, path);
    hide Dfs;
  }

  /** Pass 1 from one root: everything it can newly see is finished. */
  method Explore(g: GraphView, ghost adj: Lists, visited0: seq<bool>, order0: seq<nat>, s: nat) returns (visited: seq<bool>, order: seq<nat>)
    requires g.Valid() && adj == g.Fwd() && |visited0| == g.Count() && s < g.Count() && !visited0[s]
    requires Dfs(adj, SeenSet(visited0), order0, [])
    ensures |visited| == |visited0| && Dfs(adj, SeenSet(visited), order, [])
    ensures SeenSet(visited0) + {s} <= SeenSet(visited)
  {
    hide Dfs;
    hide Cursors;
    hide Transposes;
    visited, order := visited0[s := true], order0;
    var stack: seq<(nat, nat)> := [(s, 0)];
    ghost var path: seq<nat> := [] + [s];
    SeenUpdate(visited0, s);
    StartKeeps(adj, visited0, order0, s);
    while stack != []
      invariant |visited| == |visited0| == |adj|
      invariant Dfs(adj, SeenSet(visited), order, path)
      invariant Cursors(adj, SeenSet(visited), path, stack)
      invariant SeenSet(visited0) + {s} <= SeenSet(visited)
      decreases Unseen(visited), |adj| - |order|, if stack == [] || stack[|stack|-1].0 >= |adj| then 0 else |adj[stack[|stack|-1].0]| - stack[|stack|-1].1
    {
      var t := |stack| - 1;
      var (u, i) := stack[t];
      TopFacts(adj, SeenSet(visited), order, path, stack);
      DfsFits(adj, SeenSet(visited), order, path);
      g.ListsInRange();
      var nbrs := g.Out(u);
      if i < |nbrs| {
        var v := nbrs[i];
        if !visited[v] {
          DescendKeeps(adj, visited, order, path, stack);
          visited := visited[v := true];
          stack := stack[t := (u, i + 1)] + [(v, 0)];
          path := path + [v];
        } else {
          CursorsAdvance(adj, SeenSet(visited), path, stack);
          stack := stack[t := (u, i + 1)];
        }
      } else {
        FinishKeeps(adj, SeenSet(visited), order, path, stack);
        order := order + [u];
        stack := stack[..t];
        path := path[..|path|-1];
      }
    }
    NoPathLeft(adj, SeenSet(visited), path);
  }

  lemma {:induction false} StartKeeps(g: Lists, visited: seq<bool>, order: seq<nat>, s: nat)
    requires |visited| == |g| && s < |g| && !visited[s] && Dfs(g, SeenSet(visited), order, [])
    ensures Dfs(g, SeenSet(visited[s := true]), order, [] + [s])
    ensures Cursors(g, SeenSet(visited[s := true]), [] + [s], [(s, 0)])
  {
    SeenUpdate(visited, s);
    PushKeeps(g, SeenSet(visited), order, [], s);
  }

  lemma {:induction false} DfsFits(g: Lists, seen: set<nat>, order: seq<nat>, path: seq<nat>)
    requires Dfs(g, seen, order, path) && path != []
    ensures |order| < |g|
  {
    OrderFits(g, seen, order, path);
  }

  lemma {:induction false} NoPathLeft(g: Lists, seen: set<nat>, path: seq<nat>)
    requires Cursors(g, seen, path, [])
    ensures path == []
  {
  }

  /** Pass 1: a finish order of all nodes. */
  method FinishOrder(g: GraphView) returns (order: seq<nat>)
    requires g.Valid()
    ensures NoDup(order) && Members(order) == Upto(g.Count()) && GoodOrder(g.Fwd(), order)
  {
    var visited := seq(g.Count(), i => false);
    order := [];
    ghost var adj := g.Fwd();
    assert SeenSet(visited) == {} && Members(order) == {};
    for s := 0 to g.Count()
      invariant |visited| == g.Count()
      invariant Dfs(adj, SeenSet(visited), order, [])
      invariant Upto(s) <= SeenSet(visited)
    {
      if !visited[s] {
        visited, order := Explore(g, adj, visited, order, s);
      }
    }
    assert SeenSet(visited) <= Upto(g.Count());
    assert Members([]) == {};
  }

  // ---- pass 2: one component per tree --------------------------------------

  ghost predicate Mutual(g: Lists, u: nat, v: nat) { Reach(g, u, v) && Reach(g, v, u) }

  lemma {:induction false} MutualTrans(g: Lists, u: nat, v: nat, x: nat)
    requires Mutual(g, u, v) && Mutual(g, v, x)
    ensures Mutual(g, u, x)
  {
    ReachTrans(g, u, v, x);
    ReachTrans(g, x, v, u);
  }

  /** A whole strongly connected component, listed without repetition. */
  ghost predicate IsComponent(g: Lists, c: seq<nat>) {
    && c != [] && NoDup(c)
    && forall u, v :: u in c && 0 <= v < |g| ==> (v in c <==> Mutual(g, u, v))
  }

  /** Once no predecessor of a member lies outside, every way in is inside. */
  lemma {:induction false} ClosedBackwards(g: Lists, inside: set<nat>, free: set<nat>, p: seq<nat>, s: nat)
    requires p != [] && IsPath(g, p, p[0], s) && s in inside
    requires forall i :: 0 <= i < |p| ==> p[i] in free
    requires forall u, v :: u in inside && v in free && Edge(g, v, u) ==> v in inside
    ensures p[0] in inside
  {
    if |p| > 1 {
      var q := p[1..];
      forall i | 0 <= i < |q| - 1 ensures Edge(g, q[i], q[i+1]) {
        assert Edge(g, p[i+1], p[i+1+1]);
      }
      assert IsPath(g, q, q[0], s);
      ClosedBackwards(g, inside, free, q, s);
      assert Edge(g, p[0], p[0+1]);
    }
  }

  /** The tree grown backwards from `s` through unassigned nodes is its component. */
  lemma {:induction false} TreeIsComponent(g: Lists, order: seq<nat>, i: nat, free: set<nat>, tree: seq<nat>)
    requires InRange(g) && GoodOrder(g, order) && i < |order| && NoDup(order)
    requires forall v :: v in Members(order) ==> v < |g|
    requires free <= Members(order[..i+1]) && order[i] in free
    requires forall v, u :: 0 <= v < |g| && v !in free && Mutual(g, v, u) ==> u !in free
    requires NoDup(tree) && order[i] in tree
    requires forall v :: v in tree ==> v in free && ReachVia(g, free, v, order[i])
    requires forall u, v :: u in tree && v in free && Edge(g, v, u) ==> v in tree
    ensures IsComponent(g, tree)
  {
    var s := order[i];
    forall v | v in tree ensures Mutual(g, s, v) {
      TreeReturns(g, order, i, free, v);
    }
    forall v | 0 <= v < |g| && Mutual(g, s, v) ensures v in tree {
      ComponentInTree(g, free, Members(tree), s, v);
    }
    forall u, v | u in tree && 0 <= v < |g| ensures v in tree <==> Mutual(g, u, v) {
      if v in tree { MutualTrans(g, u, s, v); }
      if Mutual(g, u, v) { MutualTrans(g, s, u, v); }
    }
  }

  lemma {:induction false} TreeReturns(g: Lists, order: seq<nat>, i: nat, free: set<nat>, v: nat)
    requires GoodOrder(g, order) && i < |order| && NoDup(order)
    requires forall v :: v in Members(order) ==> v < |g|
    requires free <= Members(order[..i+1]) && order[i] in free && v in free && ReachVia(g, free, v, order[i])
    ensures Mutual(g, order[i], v)
  {
    var s := order[i];
    ViaIsReach(g, free, v, s);
    if v == s {
      ReachSelf(g, s);
    } else {
      assert order[..i+1] == order[..i] + [s];
      MembersAppend(order[..i], s);
      var j :| 0 <= j < i && order[j] == v;
      ViaWider(g, free, Members(order[..i]) + {s}, v, s);
      ViaMore(g, Members(order[..i]), s, v, s);
      assert Returns(g, Members(order[..i]), order[j], order[i]);
    }
  }

  lemma {:induction false} ViaWider(g: Lists, a: set<nat>, b: set<nat>, u: nat, v: nat)
    requires ReachVia(g, a, u, v) && a <= b
    ensures ReachVia(g, b, u, v)
  {
  }

  lemma {:induction false} ComponentInTree(g: Lists, free: set<nat>, tree: set<nat>, s: nat, v: nat)
    requires InRange(g) && s in free && s in tree && Mutual(g, s, v)
    requires forall v, u :: 0 <= v < |g| && v !in free && Mutual(g, v, u) ==> u !in free
    requires forall u, v :: u in tree && v in free && Edge(g, v, u) ==> v in tree
    ensures v in tree
  {
    var p :| IsPath(g, p, v, s);
    forall k | 0 <= k < |p| ensures p[k] in free {
      assert IsPath(g, p[..k+1], v, p[k]);
      assert IsPath(g, p[k..], p[k], s);
      ReachTrans(g, s, v, p[k]);
      assert Mutual(g, p[k], s);
    }
    ClosedBackwards(g, tree, free, p, s);
  }

  /** `u32::MAX`, the mark of a node without a component. */
  const NONE: nat := 0xFFFF_FFFF

  ghost function Free(comp: seq<nat>): set<nat> {
    set v: nat | v < |comp| && comp[v] == NONE
  }

  lemma {:induction false} FreeUpdate(comp: seq<nat>, v: nat, id: nat)
    requires v < |comp| && id != NONE
    ensures Free(comp[v := id]) == Free(comp) - {v}
    ensures v in Free(comp) ==> |Free(comp[v := id])| < |Free(comp)|
  {
  }

  /** The tree so far: `members` popped, `stack` waiting; together they are the
      formerly free nodes that are free no more. */
  ghost predicate Growing(g: Lists, free: set<nat>, s: nat, left: set<nat>, members: seq<nat>, stack: seq<nat>) {
    && NoDup(members) && NoDup(stack) && Members(members) !! Members(stack)
    && s in Members(members) + Members(stack)
    && left == free - (Members(members) + Members(stack))
    && forall v :: v in Members(members) + Members(stack) ==> v in free && ReachVia(g, free, v, s)
  }

  /** Every free predecessor of a popped node is in the tree. */
  ghost predicate Gathered(g: Lists, free: set<nat>, left: set<nat>, members: set<nat>) {
    forall u, v :: u in members && v in free && Edge(g, v, u) ==> v !in left
  }

  lemma {:induction false} PushMember(g: Lists, free: set<nat>, s: nat, left: set<nat>, members: seq<nat>, stack: seq<nat>, u: nat, v: nat)
    requires Growing(g, free, s, left, members, stack) && v in left && u in Members(members) && Edge(g, v, u)
    ensures Growing(g, free, s, left - {v}, members, stack + [v])
  {
    MembersAppend(stack, v);
    ViaPrepend(g, free, v, u, s);
  }

  lemma {:induction false} PopMember(g: Lists, free: set<nat>, s: nat, left: set<nat>, members: seq<nat>, stack: seq<nat>)
    requires Growing(g, free, s, left, members, stack) && stack != []
    ensures Growing(g, free, s, left, members + [stack[|stack|-1]], stack[..|stack|-1])
  {
    MembersButLast(stack);
    MembersAppend(members, stack[|stack|-1]);
  }

  lemma {:induction false} GatheredMore(g: Lists, free: set<nat>, left: set<nat>, done: set<nat>, preds: seq<nat>, u: nat)
    requires Gathered(g, free, left, done)
    requires forall v: nat :: v < |g| && Edge(g, v, u) ==> v in preds
    requires forall j :: 0 <= j < |preds| ==> preds[j] !in left
    ensures Gathered(g, free, left, done + {u})
  {
  }

  lemma {:induction false} GatheredLess(g: Lists, free: set<nat>, left: set<nat>, less: set<nat>, done: set<nat>)
    requires Gathered(g, free, left, done) && less <= left
    ensures Gathered(g, free, less, done)
  {
  }

  lemma {:induction false} PredsAreRev(g: GraphView, u: nat)
    requires g.Valid() && u < g.Count()
    ensures forall v: nat :: v < g.Count() ==> (v in g.In(u) <==> Edge(g.Fwd(), v, u))
    ensures forall k :: 0 <= k < |g.In(u)| ==> g.In(u)[k] < g.Count() && Edge(g.Fwd(), g.In(u)[k], u)
  {
    g.ListsInRange();
    assert g.Rev()[u] == g.In(u);
    assert forall k :: 0 <= k < |g.In(u)| ==> g.Rev()[u][k] < g.Count();
  }

  /** Claim the free predecessors of the node just popped. */
  method Claim(g: GraphView, comp0: seq<nat>, members: seq<nat>, stack0: seq<nat>, u: nat, id: nat, ghost free: set<nat>, s: nat)
      returns (comp: seq<nat>, stack: seq<nat>)
    requires g.Valid() && |comp0| == g.Count() && u < g.Count() && u in Members(members) && id != NONE
    requires Growing(g.Fwd(), free, s, Free(comp0), members, stack0)
    ensures |comp| == |comp0| && Growing(g.Fwd(), free, s, Free(comp), members, stack)
    ensures forall j :: 0 <= j < |g.In(u)| ==> g.In(u)[j] !in Free(comp)
    ensures Free(comp) <= Free(comp0)
    ensures |Free(comp)| < |Free(comp0)| || (Free(comp) == Free(comp0) && |stack| == |stack0|)
  {
    hide Growing;
    hide Edge;
    PredsAreRev(g, u);
    comp, stack := comp0, stack0;
    var preds := g.In(u);
    for k := 0 to |preds|
      invariant |comp| == |comp0|
      invariant Growing(g.Fwd(), free, s, Free(comp), members, stack)
      invariant forall j :: 0 <= j < k ==> preds[j] !in Free(comp)
      invariant Free(comp) <= Free(comp0)
      invariant |Free(comp)| < |Free(comp0)| || (Free(comp) == Free(comp0) && |stack| == |stack0|)
    {
      var v := preds[k];
      if comp[v] == NONE {
        FreeUpdate(comp, v, id);
        PushMember(g.Fwd(), free, s, Free(comp), members, stack, u, v);
        comp := comp[v := id];
        stack := stack + [v];
      }
    }
  }

  lemma {:induction false} GrowStart(g: Lists, comp: seq<nat>, s: nat, id: nat)
    requires |comp| == |g| && s in Free(comp) && id != NONE
    ensures Growing(g, Free(comp), s, Free(comp[s := id]), [], [s])
  {
    FreeUpdate(comp, s, id);
    ReachSelf(g, s);
  }

  lemma {:induction false} StackInRange(g: Lists, free: set<nat>, s: nat, left: set<nat>, members: seq<nat>, stack: seq<nat>)
    requires Growing(g, free, s, left, members, stack) && stack != []
    ensures stack[|stack|-1] in free
  {
    assert stack[|stack|-1] in Members(stack);
  }

  lemma {:induction false} ClaimGathers(g: GraphView, adj: Lists, free: set<nat>, left: set<nat>, less: set<nat>, done: set<nat>, u: nat)
    requires g.Valid() && adj == g.Fwd() && u < g.Count()
    requires Gathered(adj, free, left, done) && less <= left
    requires forall j :: 0 <= j < |g.In(u)| ==> g.In(u)[j] !in less
    ensures Gathered(adj, free, less, done + {u})
  {
    GatheredLess(adj, free, left, less, done);
    PredsAreRev(g, u);
    GatheredMore(adj, free, less, done, g.In(u), u);
  }

  /** Pass 2 from one root: the tree grown over reverse edges. */
  method Gather(g: GraphView, comp0: seq<nat>, s: nat, id: nat) returns (comp: seq<nat>, members: seq<nat>)
    requires g.Valid() && |comp0| == g.Count() && s in Free(comp0) && id != NONE
    ensures |comp| == |comp0|
    ensures Growing(g.Fwd(), Free(comp0), s, Free(comp), members, [])
    ensures Gathered(g.Fwd(), Free(comp0), Free(comp), Members(members))
  {
    ghost var (adj, free) := (g.Fwd(), Free(comp0));
    comp, members := comp0[s := id], [];
    var stack := [s];
    GrowStart(adj, comp0, s, id);
    assert Gathered(adj, free, Free(comp), Members([]));
    hide Growing;
    hide Gathered;
    hide Members;
    hide GraphView.Valid;
    while stack != []
      invariant |comp| == |comp0|
      invariant Growing(adj, free, s, Free(comp), members, stack)
      invariant Gathered(adj, free, Free(comp), Members(members))
      decreases |Free(comp)|, |stack|
    {
      var u := stack[|stack|-1];
      StackInRange(adj, free, s, Free(comp), members, stack);
      PopMember(adj, free, s, Free(comp), members, stack);
      MembersAppend(members, u);
      ghost var (done, left) := (Members(members), Free(comp));
      members := members + [u];
      comp, stack := Claim(g, comp, members, stack[..|stack|-1], u, id, free, s);
      ClaimGathers(g, adj, free, left, Free(comp), done, u);
    }
  }

  // ---- both passes ---------------------------------------------------------

  /** The components found so far: whole, pairwise disjoint, and exactly the nodes
      that are no longer free. */
  ghost predicate Partial(g: Lists, free: set<nat>, sccs: seq<seq<nat>>) {
    && (forall c :: 0 <= c < |sccs| ==> IsComponent(g, sccs[c]))
    && (forall c, d, v :: 0 <= c < d < |sccs| && v in sccs[c] ==> v !in sccs[d])
    && (forall c, k :: 0 <= c < |sccs| && 0 <= k < |sccs[c]| ==> sccs[c][k] < |g| && sccs[c][k] !in free)
    && (forall v :: 0 <= v < |g| && v !in free ==> Listed(sccs, v))
  }

  ghost predicate Listed(sccs: seq<seq<nat>>, v: nat) { exists c :: 0 <= c < |sccs| && v in sccs[c] }

  lemma {:induction false} FreeIsUnion(g: Lists, free: set<nat>, sccs: seq<seq<nat>>, v: nat, u: nat)
    requires Partial(g, free, sccs) && v < |g| && v !in free && Mutual(g, v, u)
    ensures u !in free
  {
    assert Listed(sccs, v);
    var c :| 0 <= c < |sccs| && v in sccs[c];
    ReachInRange(g, v, u);
    assert IsComponent(g, sccs[c]);
  }

  lemma {:induction false} AddComponent(g: Lists, order: seq<nat>, i: nat, free: set<nat>, left: set<nat>, sccs: seq<seq<nat>>, members: seq<nat>)
    requires InRange(g) && GoodOrder(g, order) && i < |order| && NoDup(order)
    requires forall v :: v in Members(order) ==> v < |g|
    requires free <= Members(order[..i+1]) && order[i] in free
    requires Partial(g, free, sccs)
    requires Growing(g, free, order[i], left, members, []) && Gathered(g, free, left, Members(members))
    ensures Partial(g, left, sccs + [members])
    ensures left <= free - {order[i]}
  {
    assert Members([]) == {};
    assert forall v :: v in members <==> v in Members(members);
    forall v, u | 0 <= v < |g| && v !in free && Mutual(g, v, u) ensures u !in free {
      FreeIsUnion(g, free, sccs, v, u);
    }
    hide Mutual;
    TreeIsComponent(g, order, i, free, members);
    AddDisjoint(g, free, left, sccs, members);
  }

  lemma {:induction false} AddDisjoint(g: Lists, free: set<nat>, left: set<nat>, sccs: seq<seq<nat>>, members: seq<nat>)
    requires Partial(g, free, sccs) && IsComponent(g, members)
    requires forall v :: v in members ==> v in free && v < |g|
    requires left == free - Members(members)
    ensures Partial(g, left, sccs + [members])
  {
    hide IsComponent;
    var all := sccs + [members];
    forall v | 0 <= v < |g| && v !in left ensures Listed(all, v) {
      if v in free {
        assert v in all[|sccs|];
      } else {
        assert Listed(sccs, v);
        var c :| 0 <= c < |sccs| && v in sccs[c];
        assert v in all[c];
      }
    }
    forall c | 0 <= c < |all| ensures IsComponent(g, all[c]) {
      if c < |sccs| { assert all[c] == sccs[c]; } else { assert all[c] == members; }
    }
    forall c, d, v | 0 <= c < d < |all| && v in all[c] ensures v !in all[d] {
      assert all[c] == sccs[c];
      var k :| 0 <= k < |sccs[c]| && sccs[c][k] == v;
      if d < |sccs| { assert all[d] == sccs[d]; } else { assert all[d] == members; }
    }
    forall c, k | 0 <= c < |all| && 0 <= k < |all[c]| ensures all[c][k] < |g| && all[c][k] !in left {
      if c < |sccs| { assert all[c] == sccs[c]; } else { assert all[c] == members && members[k] in Members(members); }
    }
  }

  /** A finish order covering every node. */
  ghost predicate Covers(g: Lists, order: seq<nat>) {
    InRange(g) && GoodOrder(g, order) && NoDup(order) && forall v :: v in Members(order) ==> v < |g|
  }

  /** One root of pass 2, in reverse finish order. */
  method Root(g: GraphView, ghost adj: Lists, ghost order: seq<nat>, ghost i: nat, s: nat, comp0: seq<nat>, sccs0: seq<seq<nat>>)
      returns (comp: seq<nat>, sccs: seq<seq<nat>>)
    requires g.Valid() && adj == g.Fwd() && g.Count() <= NONE && |comp0| == g.Count()
    requires Covers(adj, order) && i < |order| && order[i] == s && s < g.Count()
    requires Free(comp0) <= Members(order[..i+1]) && Partial(adj, Free(comp0), sccs0)
    ensures |comp| == |comp0| && Free(comp) <= Members(order[..i]) && Partial(adj, Free(comp), sccs)
  {
    hide GraphView.Valid;
    hide GoodOrder;
    hide Partial;
    hide IsComponent;
    hide NoDup;
    assert order[..i+1] == order[..i] + [s];
    MembersAppend(order[..i], s);
    comp, sccs := comp0, sccs0;
    if comp[s] == NONE {
      CardOk(adj, Free(comp0), sccs0, s);
      var members;
      comp, members := Gather(g, comp, s, |sccs|);
      AddComponent(adj, order, i, Free(comp0), Free(comp), sccs, members);
      sccs := sccs + [members];
    }
  }

  lemma {:induction false} Prepared(g: GraphView, order: seq<nat>)
    requires g.Valid() && NoDup(order) && Members(order) == Upto(g.Count()) && GoodOrder(g.Fwd(), order)
    ensures Covers(g.Fwd(), order) && |g.Fwd()| == g.Count()
    ensures Free(seq(g.Count(), i => NONE)) == Members(order) && Partial(g.Fwd(), Members(order), [])
  {
    hide GoodOrder;
    g.ListsInRange();
    NothingYet(g.Fwd(), Upto(g.Count()));
  }

  /** Dense components, by both passes. */
  method Components(g: GraphView) returns (sccs: seq<seq<nat>>)
    requires g.Valid() && g.Count() <= NONE
    ensures Partial(g.Fwd(), {}, sccs)
  {
    ghost var adj := g.Fwd();
    hide GoodOrder;
    hide GraphView.Valid;
    hide Covers;
    hide Partial;
    hide NoDup;
    var order := FinishOrder(g);
    Prepared(g, order);
    var comp: seq<nat> := seq(g.Count(), i => NONE);
    sccs := [];
    assert order[..|order|] == order;
    var i := |order|;
    while i > 0
      invariant 0 <= i <= |order| && |comp| == g.Count() == |adj|
      invariant Free(comp) <= Members(order[..i])
      invariant Partial(adj, Free(comp), sccs)
    {
      i := i - 1;
      assert order[i] in Members(order);
      comp, sccs := Root(g, adj, order, i, order[i], comp, sccs);
    }
    assert order[..0] == [];
    assert Free(comp) == {};
  }

  /** There are fewer components than nodes while a node is free: a head from each. */
  ghost function Heads(g: Lists, sccs: seq<seq<nat>>): (r: seq<nat>)
    requires forall c :: 0 <= c < |sccs| ==> IsComponent(g, sccs[c])
    ensures |r| == |sccs| && forall c :: 0 <= c < |r| ==> r[c] in sccs[c]
  {
    if sccs == [] then []
    else
      assert IsComponent(g, sccs[|sccs|-1]);
      Heads(g, sccs[..|sccs|-1]) + [sccs[|sccs|-1][0]]
  }

  lemma {:induction false} CardOk(g: Lists, free: set<nat>, sccs: seq<seq<nat>>, v: nat)
    requires Partial(g, free, sccs) && v in free && v < |g|
    ensures |sccs| < |g|
  {
    var heads := Heads(g, sccs);
    hide IsComponent;
    assert NoDup(heads);
    NoDupCard(heads);
    forall x | x in Members(heads) ensures x < |g| && x !in free {
      var c :| 0 <= c < |heads| && heads[c] == x;
      var k :| 0 <= k < |sccs[c]| && sccs[c][k] == x;
    }
    Subset(Members(heads) + {v}, Upto(|g|));
  }

  lemma {:induction false} NothingYet(g: Lists, free: set<nat>)
    requires free == Upto(|g|)
    ensures Partial(g, free, [])
  {
  }

  /** The component of node ids, as the caller sees it. */
  function Named(g: GraphView, c: seq<nat>): seq<nat>
    requires forall k :: 0 <= k < |c| ==> c[k] < |g.ids|
  {
    seq(|c|, k requires 0 <= k < |c| => g.ids[c[k]])
  }

  /** Two nodes lie in the same listed component. */
  ghost predicate Together(g: GraphView, sccs: seq<seq<nat>>, u: nat, v: nat)
    requires u < g.Count() && v < g.Count()
  {
    exists c :: 0 <= c < |sccs| && g.ids[u] in sccs[c] && g.ids[v] in sccs[c]
  }

  /** Every node is listed exactly once, and two nodes are listed together if and
      only if each reaches the other. */
  ghost predicate IsPartition(g: GraphView, sccs: seq<seq<nat>>)
    requires g.Valid()
  {
    && (forall c :: 0 <= c < |sccs| ==> sccs[c] != [] && NoDup(sccs[c]))
    && (forall c, d, x :: 0 <= c < d < |sccs| && x in sccs[c] ==> x !in sccs[d])
    && (forall c, k :: 0 <= c < |sccs| && 0 <= k < |sccs[c]| ==> sccs[c][k] in g.ids)
    && (forall u, v :: 0 <= u < g.Count() && 0 <= v < g.Count() ==> (Together(g, sccs, u, v) <==> Mutual(g.Fwd(), u, v)))
  }

  lemma {:induction false} NamedMembers(g: GraphView, c: seq<nat>, u: nat)
    requires g.Valid() && u < g.Count() && forall k :: 0 <= k < |c| ==> c[k] < |g.ids|
    ensures g.ids[u] in Named(g, c) <==> u in c
  {
    if u in c {
      var k :| 0 <= k < |c| && c[k] == u;
      assert Named(g, c)[k] == g.ids[u];
    }
  }

  lemma {:induction false} NamedPartition(g: GraphView, dense: seq<seq<nat>>, sccs: seq<seq<nat>>)
    requires g.Valid() && Partial(g.Fwd(), {}, dense) && |sccs| == |dense|
    requires forall c :: 0 <= c < |dense| ==> (forall k :: 0 <= k < |dense[c]| ==> dense[c][k] < |g.ids|) && sccs[c] == Named(g, dense[c])
    ensures IsPartition(g, sccs)
  {
    var adj := g.Fwd();
    forall c | 0 <= c < |sccs| ensures sccs[c] != [] && NoDup(sccs[c]) {
      assert IsComponent(adj, dense[c]);
    }
    forall c, x | 0 <= c < |sccs| && x in sccs[c] ensures exists u :: 0 <= u < g.Count() && g.ids[u] == x && u in dense[c] {
      var k :| 0 <= k < |sccs[c]| && sccs[c][k] == x;
      assert g.ids[dense[c][k]] == x && dense[c][k] in dense[c];
    }
    forall c, d, x | 0 <= c < d < |sccs| && x in sccs[c] ensures x !in sccs[d] {
      var u :| 0 <= u < g.Count() && g.ids[u] == x && u in dense[c];
      NamedMembers(g, dense[d], u);
    }
    forall u, v | 0 <= u < g.Count() && 0 <= v < g.Count() ensures Together(g, sccs, u, v) <==> Mutual(adj, u, v) {
      assert Listed(dense, u);
      var c :| 0 <= c < |dense| && u in dense[c];
      assert IsComponent(adj, dense[c]);
      NamedMembers(g, dense[c], u);
      NamedMembers(g, dense[c], v);
      if Together(g, sccs, u, v) {
        var d :| 0 <= d < |sccs| && g.ids[u] in sccs[d] && g.ids[v] in sccs[d];
        NamedMembers(g, dense[d], u);
        assert d == c;
      }
    }
  }

  lemma {:induction false} DenseInRange(g: Lists, dense: seq<seq<nat>>)
    requires Partial(g, {}, dense)
    ensures forall c, k :: 0 <= c < |dense| && 0 <= k < |dense[c]| ==> dense[c][k] < |g|
  {
    forall c, k | 0 <= c < |dense| && 0 <= k < |dense[c]| ensures dense[c][k] < |g| {
    }
  }

  /** Kosaraju: terminates and lists the strongly connected components. */
  method StronglyConnectedComponents(g: GraphView) returns (sccs: seq<seq<nat>>)
    requires g.Valid() && g.Count() <= NONE
    ensures IsPartition(g, sccs)
  {
    var dense := Components(g);
    DenseInRange(g.Fwd(), dense);
    sccs := [];
    for c := 0 to |dense|
      invariant |sccs| == c
      invariant forall d, k :: 0 <= d < |dense| && 0 <= k < |dense[d]| ==> dense[d][k] < |g.ids|
      invariant forall d :: 0 <= d < c ==> sccs[d] == Named(g, dense[d])
    {
      sccs := sccs + [Named(g, dense[c])];
    }
    NamedPartition(g, dense, sccs);
  }

  function Sizable(sccs: seq<seq<nat>>): seq<seq<nat>> {
    if sccs == [] then []
    else Sizable(sccs[..|sccs|-1]) + (if |sccs[|sccs|-1]| >= 2 then [sccs[|sccs|-1]] else [])
  }

  lemma {:induction false} SizableMembers(sccs: seq<seq<nat>>, c: seq<nat>)
    ensures c in Sizable(sccs) <==> c in sccs && |c| >= 2
  {
    if sccs != [] {
      var n := |sccs| - 1;
      SizableMembers(sccs[..n], c);
      assert sccs == sccs[..n] + [sccs[n]];
    }
  }

  /** The lists are the components of two or more nodes, each whole and each once. */
  ghost predicate ExactlyCycles(g: GraphView, cycles: seq<seq<nat>>)
    requires g.Valid()
  {
    && (forall c :: 0 <= c < |cycles| ==> |cycles[c]| >= 2 && NoDup(cycles[c]))
    && (forall c, d, x :: 0 <= c < d < |cycles| && x in cycles[c] ==> x !in cycles[d])
    && (forall c, x :: 0 <= c < |cycles| && x in cycles[c] ==> x in g.ids)
    && (forall c, u, v :: 0 <= c < |cycles| && 0 <= u < g.Count() && 0 <= v < g.Count() && g.ids[u] in cycles[c] ==>
          (g.ids[v] in cycles[c] <==> Mutual(g.Fwd(), u, v)))
    && (forall u :: 0 <= u < g.Count() ==> (InSome(g, cycles, u) <==> Circulates(g, u)))
  }

  ghost predicate InSome(g: GraphView, cycles: seq<seq<nat>>, u: nat)
    requires u < g.Count()
  {
    exists c :: 0 <= c < |cycles| && g.ids[u] in cycles[c]
  }

  /** The node reaches some other node and back. */
  ghost predicate Circulates(g: GraphView, u: nat)
    requires g.Valid() && u < g.Count()
  {
    exists v :: 0 <= v < g.Count() && v != u && Mutual(g.Fwd(), u, v)
  }

  /** `laundering_cycles`: the components of two or more nodes, in the order found. */
  method LaunderingCycles(g: GraphView) returns (cycles: seq<seq<nat>>, ghost sccs: seq<seq<nat>>)
    requires g.Valid() && g.Count() <= NONE
    ensures ExactlyCycles(g, cycles)
    ensures IsPartition(g, sccs) && cycles == Sizable(sccs) && forall c :: c in cycles <==> c in sccs && |c| >= 2
  {
    var found := StronglyConnectedComponents(g);
    cycles, sccs := Sizable(found), found;
    forall c ensures c in cycles <==> c in sccs && |c| >= 2 { SizableMembers(sccs, c); }
    SizableExact(g, sccs);
  }

  lemma {:induction false} SizableDisjoint(g: GraphView, sccs: seq<seq<nat>>, n: nat)
    requires g.Valid() && IsPartition(g, sccs) && n <= |sccs|
    ensures forall c, d, x :: 0 <= c < d < |Sizable(sccs[..n])| && x in Sizable(sccs[..n])[c] ==> x !in Sizable(sccs[..n])[d]
  {
    if n > 0 {
      SizableDisjoint(g, sccs, n - 1);
      assert sccs[..n][..n-1] == sccs[..n-1];
      var front := Sizable(sccs[..n-1]);
      forall c, x | 0 <= c < |front| && x in front[c] ensures x !in sccs[n-1] {
        SizableMembers(sccs[..n-1], front[c]);
        var k :| 0 <= k < n - 1 && sccs[k] == front[c];
      }
    }
  }

  lemma {:induction false} SizableExact(g: GraphView, sccs: seq<seq<nat>>)
    requires g.Valid() && IsPartition(g, sccs)
    ensures ExactlyCycles(g, Sizable(sccs))
  {
    var cycles := Sizable(sccs);
    SizableDisjoint(g, sccs, |sccs|);
    assert sccs[..|sccs|] == sccs;
    forall c | 0 <= c < |cycles| ensures |cycles[c]| >= 2 && exists d :: 0 <= d < |sccs| && sccs[d] == cycles[c] {
      SizableMembers(sccs, cycles[c]);
    }
    forall c, u, v | 0 <= c < |cycles| && 0 <= u < g.Count() && 0 <= v < g.Count() && g.ids[u] in cycles[c]
      ensures g.ids[v] in cycles[c] <==> Mutual(g.Fwd(), u, v)
    {
      var d :| 0 <= d < |sccs| && sccs[d] == cycles[c];
      WholeComponent(g, sccs, d, u, v);
    }
    forall u | 0 <= u < g.Count() ensures InSome(g, cycles, u) <==> Circulates(g, u) {
      CycleIffMutual(g, sccs, u);
      if c :| c in sccs && |c| >= 2 && g.ids[u] in c { SizableMembers(sccs, c); }
    }
  }

  /** A listed component is a whole one. */
  lemma {:induction false} WholeComponent(g: GraphView, sccs: seq<seq<nat>>, d: nat, u: nat, v: nat)
    requires g.Valid() && IsPartition(g, sccs) && d < |sccs| && u < g.Count() && v < g.Count() && g.ids[u] in sccs[d]
    ensures g.ids[v] in sccs[d] <==> Mutual(g.Fwd(), u, v)
  {
    assert Together(g, sccs, u, v) <==> Mutual(g.Fwd(), u, v);
    if Together(g, sccs, u, v) {
      var e :| 0 <= e < |sccs| && g.ids[u] in sccs[e] && g.ids[v] in sccs[e];
      assert e == d;
    }
  }

  lemma {:induction false} CycleIffMutual(g: GraphView, sccs: seq<seq<nat>>, u: nat)
    requires g.Valid() && IsPartition(g, sccs) && u < g.Count()
    ensures (exists c :: c in sccs && |c| >= 2 && g.ids[u] in c) <==> Circulates(g, u)
  {
    if c :| c in sccs && |c| >= 2 && g.ids[u] in c {
      var d :| 0 <= d < |sccs| && sccs[d] == c;
      var k := if c[0] == g.ids[u] then 1 else 0;
      var x := sccs[d][k];
      var v :| 0 <= v < |g.ids| && g.ids[v] == x;
      assert Together(g, sccs, u, v);
      assert v != u && Mutual(g.Fwd(), u, v);
    }
    if v :| 0 <= v < g.Count() && v != u && Mutual(g.Fwd(), u, v) {
      assert Together(g, sccs, u, v);
      var d :| 0 <= d < |sccs| && g.ids[u] in sccs[d] && g.ids[v] in sccs[d];
      assert sccs[d] in sccs && |sccs[d]| >= 2;
    }
  }
}
