/**
 * `PathExtractor.getShortestPath`: the dependency tree of an n-gram seen as an undirected
 * graph (token `i` is linked to its head `head - 1`), searched breadth-first from `src`
 * until `dst` is dequeued, and the path read back through the `prev` array.
 */
module DepGraph {
  import opened Wrappers
  import opened Tokens

  /** Tokens `u` and `v` are linked when one is the other's head. */
  predicate Edge(toks: seq<Token>, u: int, v: int) {
    0 <= u < |toks| && 0 <= v < |toks| && (toks[u].head - 1 == v || toks[v].head - 1 == u)
  }

  /** A non-empty sequence of token indices, each linked to the next. */
  predicate IsWalk(toks: seq<Token>, w: seq<int>) {
    && |w| >= 1
    && (forall k :: 0 <= k < |w| ==> 0 <= w[k] < |toks|)
    && (forall k :: 0 <= k < |w| - 1 ==> Edge(toks, w[k], w[k + 1]))
  }

  predicate Connects(toks: seq<Token>, w: seq<int>, src: int, dst: int) {
    IsWalk(toks, w) && w[0] == src && w[|w| - 1] == dst
  }

  ghost predicate Reachable(toks: seq<Token>, src: int, dst: int) {
    exists w :: Connects(toks, w, src, dst)
  }

  predicate Distinct(w: seq<int>) {
    forall i, j :: 0 <= i < j < |w| ==> w[i] != w[j]
  }

  /** A walk from `src` to `dst` without repeated tokens and with no shorter walk beside it. */
  ghost predicate IsShortestPath(toks: seq<Token>, src: int, dst: int, p: seq<int>) {
    && Connects(toks, p, src, dst)
    && Distinct(p)
    && forall w :: Connects(toks, w, src, dst) ==> |p| <= |w|
  }

  /** The links the first `k` tokens have added to the adjacency lists. */
  predicate LinkedBefore(toks: seq<Token>, k: int, u: int, v: int)
    requires 0 <= k <= |toks|
  {
    (0 <= u < k && toks[u].head - 1 == v) || (0 <= v < k && toks[v].head - 1 == u)
  }

  /** `Collections.reverse`. */
  function Reversed(s: seq<int>): (r: seq<int>)
    ensures |r| == |s| && forall i :: 0 <= i < |s| ==> r[i] == s[|s| - 1 - i]
  {
    if s == [] then [] else Reversed(s[1..]) + [s[0]]
  }

  /** The adjacency lists: for each token `i` with a head inside the n-gram, the head is
      added to `adj[i]` and `i` to `adj[head]`. */
  method Adjacency(toks: seq<Token>) returns (adj: array<seq<int>>)
    ensures fresh(adj) && adj.Length == |toks|
    ensures forall u, v :: 0 <= u < |toks| && 0 <= v < |toks| ==> (v in adj[u] <==> Edge(toks, u, v))
    ensures forall u, j :: 0 <= u < |toks| && 0 <= j < |adj[u]| ==> 0 <= adj[u][j] < |toks|
  {
    var n := |toks|;
    adj := new seq<int>[n](_ => []);
    for i := 0 to n
      invariant forall u, v :: 0 <= u < n && 0 <= v < n ==> (v in adj[u] <==> LinkedBefore(toks, i, u, v))
      invariant forall u, j :: 0 <= u < n && 0 <= j < |adj[u]| ==> 0 <= adj[u][j] < n
    {
      var h := toks[i].head - 1;
      if 0 <= h < n {
        adj[i] := adj[i] + [h];
        adj[h] := adj[h] + [i];
      }
    }
  }

  /** Along a walk from a visited node with distance 0, every node before position `bound`
      is visited no farther than its position, provided visited nodes closer than `bound`
      have all their neighbours visited at most one step farther. */
  lemma {:induction false} WalkLevel(toks: seq<Token>, prev: seq<int>, dist: seq<int>, w: seq<int>, bound: int, k: int)
    requires |prev| == |toks| && |dist| == |toks|
    requires IsWalk(toks, w) && prev[w[0]] != -1 && dist[w[0]] == 0
    requires forall x, y :: 0 <= x < |toks| && prev[x] != -1 && dist[x] < bound && Edge(toks, x, y) ==>
      prev[y] != -1 && dist[y] <= dist[x] + 1
    requires 0 <= k < |w| && k < bound
    ensures prev[w[k]] != -1 && dist[w[k]] <= k
    decreases k
  {
    if k > 0 {
      WalkLevel(toks, prev, dist, w, bound, k - 1);
      assert Edge(toks, w[k - 1], w[k]);
    }
  }

  /** The `prev` array as a breadth-first tree rooted at `src`: every visited node other
      than `src` hangs from a visited neighbour one step closer. */
  ghost predicate Tree(toks: seq<Token>, prev: seq<int>, dist: seq<int>, src: int) {
    && |prev| == |toks| && |dist| == |toks| && 0 <= src < |toks|
    && prev[src] == src && dist[src] == 0
    && (forall v :: 0 <= v < |toks| ==> -1 <= prev[v] < |toks|)
    && (forall v :: 0 <= v < |toks| && prev[v] != -1 ==> 0 <= dist[v])
    && (forall v :: 0 <= v < |toks| && v != src && prev[v] != -1 ==>
         prev[prev[v]] != -1 && Edge(toks, prev[v], v) && dist[v] == dist[prev[v]] + 1)
  }

  /** The queue holds visited nodes in order of distance, all at `level` or `level + 1`, and
      no visited node is farther than `level + 1`. */
  ghost predicate Frontier(prev: seq<int>, dist: seq<int>, q: seq<int>, level: int)
    requires |prev| == |dist|
  {
    && 0 <= level
    && (forall v :: 0 <= v < |prev| && prev[v] != -1 ==> dist[v] <= level + 1)
    && (forall i :: 0 <= i < |q| ==> 0 <= q[i] < |prev| && prev[q[i]] != -1 && level <= dist[q[i]])
    && (forall i, j :: 0 <= i < j < |q| ==> dist[q[i]] <= dist[q[j]])
  }

  /** Every visited node outside the queue, other than `busy`, has all its neighbours
      visited, at most one step farther. */
  ghost predicate Closed(toks: seq<Token>, prev: seq<int>, dist: seq<int>, q: seq<int>, busy: int)
    requires |prev| == |toks| && |dist| == |toks|
  {
    forall x, y :: 0 <= x < |toks| && prev[x] != -1 && x !in q && x != busy && Edge(toks, x, y) ==>
      prev[y] != -1 && dist[y] <= dist[x] + 1
  }

  /** The state of the search between two steps. */
  ghost predicate Searching(toks: seq<Token>, prev: seq<int>, dist: seq<int>, q: seq<int>, level: int, src: int, busy: int) {
    Tree(toks, prev, dist, src) && Frontier(prev, dist, q, level) && Closed(toks, prev, dist, q, busy)
  }

  /** Dequeuing the head `u` moves `level` up to its distance and leaves `u` the only visited
      node outside the queue whose neighbours may be unvisited. */
  lemma Dequeue(toks: seq<Token>, prev: seq<int>, dist: seq<int>, q: seq<int>, level: int)
    requires |prev| == |toks| && |dist| == |toks| && q != []
    requires Frontier(prev, dist, q, level) && Closed(toks, prev, dist, q, -1)
    ensures Frontier(prev, dist, q[1..], dist[q[0]]) && Closed(toks, prev, dist, q[1..], q[0])
  {
    forall i | 0 <= i < |q[1..]| ensures dist[q[0]] <= dist[q[1..][i]] {
      assert q[1..][i] == q[i + 1];
    }
    assert q == [q[0]] + q[1..];
  }

  /** Visiting an unvisited neighbour `v` of the node `u` being expanded keeps the tree. */
  lemma VisitTree(toks: seq<Token>, prev: seq<int>, dist: seq<int>, src: int, u: int, v: int)
    requires Tree(toks, prev, dist, src)
    requires 0 <= u < |toks| && prev[u] != -1
    requires 0 <= v < |toks| && prev[v] == -1 && Edge(toks, u, v)
    ensures Tree(toks, prev[v := u], dist[v := dist[u] + 1], src)
  {
  }

  /** ... and the frontier, with `v` queued one step beyond `u`. */
  lemma VisitFrontier(prev: seq<int>, dist: seq<int>, q: seq<int>, level: int, u: int, v: int)
    requires |prev| == |dist| && Frontier(prev, dist, q, level)
    requires 0 <= u < |prev| && prev[u] != -1 && dist[u] == level
    requires 0 <= v < |prev| && prev[v] == -1
    ensures Frontier(prev[v := u], dist[v := level + 1], q + [v], level)
  {
    var prev', dist', q' := prev[v := u], dist[v := level + 1], q + [v];
    forall i | 0 <= i < |q'| ensures 0 <= q'[i] < |prev'| && prev'[q'[i]] != -1 && level <= dist'[q'[i]] {
      if i < |q| {
        assert q'[i] == q[i];
      }
    }
    forall i, j | 0 <= i < j < |q'| ensures dist'[q'[i]] <= dist'[q'[j]] {
      if j < |q| {
        assert q'[i] == q[i] && q'[j] == q[j];
      } else {
        assert q'[i] == q[i];
      }
    }
  }

  /** ... and the closure of the nodes already expanded. */
  lemma VisitClosed(toks: seq<Token>, prev: seq<int>, dist: seq<int>, q: seq<int>, u: int, v: int, d: int)
    requires |prev| == |toks| && |dist| == |toks| && Closed(toks, prev, dist, q, u)
    requires 0 <= v < |toks| && prev[v] == -1 && u != -1
    ensures Closed(toks, prev[v := u], dist[v := d], q + [v], u)
  {
    var prev', dist', q' := prev[v := u], dist[v := d], q + [v];
    forall x, y | 0 <= x < |toks| && prev'[x] != -1 && x !in q' && x != u && Edge(toks, x, y)
      ensures prev'[y] != -1 && dist'[y] <= dist'[x] + 1
    {
      assert x != v && x !in q;
    }
  }

  /** Once all neighbours of `u` are visited, `u` is closed too. */
  lemma Finish(toks: seq<Token>, prev: seq<int>, dist: seq<int>, q: seq<int>, level: int, u: int)
    requires |prev| == |toks| && |dist| == |toks|
    requires Frontier(prev, dist, q, level) && Closed(toks, prev, dist, q, u)
    requires 0 <= u < |toks| && dist[u] == level
    requires forall y :: Edge(toks, u, y) ==> prev[y] != -1
    ensures Closed(toks, prev, dist, q, -1)
  {
  }

  /** The nodes not yet visited. */
  ghost function Unvisited(prev: seq<int>): set<int> {
    set v | 0 <= v < |prev| && prev[v] == -1
  }

  /** One step of the inner loop: visiting an unvisited neighbour `v` of `u` keeps the
      search state and leaves one node fewer unvisited. */
  lemma Visit(toks: seq<Token>, prev: seq<int>, dist: seq<int>, q: seq<int>, level: int, src: int, u: int, v: int)
    requires Searching(toks, prev, dist, q, level, src, u)
    requires 0 <= u < |toks| && prev[u] != -1 && dist[u] == level
    requires 0 <= v < |toks| && prev[v] == -1 && Edge(toks, u, v)
    ensures Searching(toks, prev[v := u], dist[v := level + 1], q + [v], level, src, u)
  {
    VisitTree(toks, prev, dist, src, u, v);
    VisitFrontier(prev, dist, q, level, u, v);
    VisitClosed(toks, prev, dist, q, u, v, level + 1);
  }

  /** Visited nodes stay visited from `a` to `b`. */
  ghost predicate Grows(a: seq<int>, b: seq<int>) {
    |a| == |b| && forall x :: 0 <= x < |a| && a[x] != -1 ==> b[x] != -1
  }

  /** `v` was unvisited in `a` and is visited in `b`. */
  ghost predicate NewlyVisited(a: seq<int>, b: seq<int>, v: int) {
    0 <= v < |a| && v < |b| && a[v] == -1 && b[v] != -1
  }

  lemma GrowsTrans(a: seq<int>, b: seq<int>, c: seq<int>)
    requires Grows(a, b) && Grows(b, c)
    ensures Grows(a, c)
  {
  }

  /** A search step that keeps every visited node leaves no more nodes unvisited, and one
      fewer when it visits a new one. */
  lemma UnvisitedShrinks(a: seq<int>, b: seq<int>, v: int)
    requires Grows(a, b)
    ensures |Unvisited(b)| <= |Unvisited(a)|
    ensures NewlyVisited(a, b, v) ==> |Unvisited(b)| < |Unvisited(a)|
  {
    assert Unvisited(b) <= Unvisited(a);
    SubsetSize(Unvisited(b), Unvisited(a));
    if NewlyVisited(a, b, v) {
      SubsetSize(Unvisited(b), Unvisited(a) - {v});
    }
  }

  lemma SubsetSize(s: set<int>, t: set<int>)
    requires s <= t
    ensures |s| <= |t|
  {
    assert t == s + (t - s);
  }

  /** One turn of the inner loop: an unvisited neighbour `v` of `u` gets `prev[v] = u` and
      joins the queue; a visited one is left alone. */
  method VisitNeighbour(toks: seq<Token>, prev: array<int>, src: int, u: int, v: int, q0: seq<int>,
                        ghost dist0: seq<int>, ghost level: int)
    returns (q: seq<int>, ghost dist: seq<int>)
    requires prev.Length == |toks| && |dist0| == |toks|
    requires 0 <= u < |toks| && prev[u] != -1 && dist0[u] == level
    requires Searching(toks, prev[..], dist0, q0, level, src, u)
    requires 0 <= v < |toks| && Edge(toks, u, v)
    modifies prev
    ensures Searching(toks, prev[..], dist, q, level, src, u)
    ensures prev[u] != -1 && |dist| == |toks| && dist[u] == level && prev[v] != -1
    ensures Grows(old(prev[..]), prev[..])
    ensures q == q0 || (q == q0 + [v] && old(prev[v]) == -1)
  {
    q, dist := q0, dist0;
    if prev[v] == -1 {
      Visit(toks, prev[..], dist, q, level, src, u, v);
      prev[v] := u;
      dist := dist[v := level + 1];
      q := q + [v];
    }
  }

  /** The inner loop of the search: every unvisited neighbour `v` of `u`, in the order of
      `adj[u]`, gets `prev[v] = u` and joins the queue. */
  method Expand(toks: seq<Token>, neighbours: seq<int>, prev: array<int>, src: int, u: int, q0: seq<int>,
                ghost dist0: seq<int>, ghost level: int)
    returns (q: seq<int>, ghost dist: seq<int>)
    requires prev.Length == |toks|
    requires forall v :: 0 <= v < |toks| ==> (v in neighbours <==> Edge(toks, u, v))
    requires forall j :: 0 <= j < |neighbours| ==> 0 <= neighbours[j] < |toks|
    requires 0 <= u < |toks| && prev[u] != -1 && |dist0| == |toks| && dist0[u] == level
    requires Searching(toks, prev[..], dist0, q0, level, src, u)
    modifies prev
    ensures Searching(toks, prev[..], dist, q, level, src, -1)
    ensures Grows(old(prev[..]), prev[..])
    ensures q == q0 || (|q| > |q0| && NewlyVisited(old(prev[..]), prev[..], q[|q0|]))
  {
    ghost var start := prev[..];
    ghost var visited := start;
    q, dist := q0, dist0;
    for j := 0 to |neighbours|
      invariant prev[..] == visited
      invariant Searching(toks, visited, dist, q, level, src, u)
      invariant visited[u] != -1 && |dist| == |toks| && dist[u] == level
      invariant forall k :: 0 <= k < j ==> visited[neighbours[k]] != -1
      invariant Grows(start, visited)
      invariant q == q0 || (|q| > |q0| && NewlyVisited(start, visited, q[|q0|]))
    {
      ghost var before, qBefore := visited, q;
      q, dist := VisitNeighbour(toks, prev, src, u, neighbours[j], q, dist, level);
      visited := prev[..];
      GrowsTrans(start, before, visited);
      CoverNext(before, visited, neighbours, j);
      if qBefore != q0 {
        assert q[|q0|] == qBefore[|q0|];
      }
    }
    NeighboursVisited(toks, visited, neighbours, u);
    Finish(toks, visited, dist, q, level, u);
  }

  /** Visiting the `j`-th neighbour keeps the ones before it visited. */
  lemma CoverNext(a: seq<int>, b: seq<int>, neighbours: seq<int>, j: int)
    requires Grows(a, b) && 0 <= j < |neighbours|
    requires forall k :: 0 <= k <= j ==> 0 <= neighbours[k] < |a|
    requires forall k :: 0 <= k < j ==> a[neighbours[k]] != -1
    requires b[neighbours[j]] != -1
    ensures forall k :: 0 <= k < j + 1 ==> b[neighbours[k]] != -1
  {
  }

  /** Once every listed neighbour of `u` is visited, so is every node linked to `u`. */
  lemma NeighboursVisited(toks: seq<Token>, prev: seq<int>, neighbours: seq<int>, u: int)
    requires |prev| == |toks|
    requires forall v :: 0 <= v < |toks| ==> (v in neighbours <==> Edge(toks, u, v))
    requires forall k :: 0 <= k < |neighbours| ==> 0 <= neighbours[k] < |toks| && prev[neighbours[k]] != -1
    ensures forall y :: Edge(toks, u, y) ==> prev[y] != -1
  {
    forall y | Edge(toks, u, y) ensures prev[y] != -1 {
      var k :| 0 <= k < |neighbours| && neighbours[k] == y;
    }
  }

  /** The read-back loop: from `dst`, follow `prev` until `src`, collecting the nodes. */
  method WalkBack(toks: seq<Token>, prev: array<int>, ghost dist: seq<int>, src: int, dst: int)
    returns (back: seq<int>)
    requires prev.Length == |toks| && Tree(toks, prev[..], dist, src)
    requires 0 <= dst < |toks| && prev[dst] != -1
    ensures |back| == dist[dst] + 1 && back[0] == dst && back[|back| - 1] == src
    ensures forall k :: 0 <= k < |back| ==> 0 <= back[k] < |toks| && dist[back[k]] == dist[dst] - k
    ensures forall k :: 0 <= k < |back| - 1 ==> Edge(toks, back[k + 1], back[k])
  {
    back := [];
    var curr := dst;
    while curr != src
      invariant 0 <= curr < |toks| && prev[curr] != -1
      invariant |back| == dist[dst] - dist[curr]
      invariant forall k :: 0 <= k < |back| ==> 0 <= back[k] < |toks| && dist[back[k]] == dist[dst] - k
      invariant forall k :: 0 <= k < |back| ==> Edge(toks, (back + [curr])[k + 1], (back + [curr])[k])
      invariant back != [] ==> back[0] == dst
      invariant back == [] ==> curr == dst
      decreases dist[curr]
    {
      back := back + [curr];
      curr := prev[curr];
    }
    back := back + [src];
  }

  /** With every visited node closed and `dst` unvisited, no walk leads from `src` to `dst`. */
  lemma Unreachable(toks: seq<Token>, prev: seq<int>, dist: seq<int>, src: int, dst: int)
    requires Tree(toks, prev, dist, src) && Closed(toks, prev, dist, [], -1)
    requires 0 <= dst < |toks| && prev[dst] == -1
    ensures !Reachable(toks, src, dst)
  {
    forall w | Connects(toks, w, src, dst) ensures false {
      WalkLevel(toks, prev, dist, w, |w|, |w| - 1);
    }
  }

  /** When every visited node closer than `dst` is closed — it is neither queued nor the one
      just dequeued — `dist[dst]` is the length of a shortest walk. */
  lemma NoShorterWalk(toks: seq<Token>, prev: seq<int>, dist: seq<int>, q: seq<int>, busy: int, src: int, dst: int)
    requires Tree(toks, prev, dist, src) && 0 <= dst < |toks| && prev[dst] != -1
    requires Closed(toks, prev, dist, q, busy)
    requires forall i :: 0 <= i < |q| ==> 0 <= q[i] < |toks| && dist[dst] <= dist[q[i]]
    requires busy == -1 || (0 <= busy < |toks| && dist[dst] <= dist[busy])
    ensures forall w :: Connects(toks, w, src, dst) ==> dist[dst] < |w|
  {
    forall x, y | 0 <= x < |toks| && prev[x] != -1 && dist[x] < dist[dst] && Edge(toks, x, y)
      ensures prev[y] != -1 && dist[y] <= dist[x] + 1
    {
      assert x !in q && x != busy;
    }
    forall w | Connects(toks, w, src, dst) ensures dist[dst] < |w| {
      if |w| - 1 < dist[dst] {
        WalkLevel(toks, prev, dist, w, dist[dst], |w| - 1);
      }
    }
  }

  /** The nodes collected from `dst` back to `src`, reversed, form a shortest path. */
  lemma ReadBackShortest(toks: seq<Token>, back: seq<int>, dist: seq<int>, src: int, dst: int)
    requires |dist| == |toks| && 0 <= dst < |toks|
    requires |back| >= 1 && |back| == dist[dst] + 1 && back[0] == dst && back[|back| - 1] == src
    requires forall k :: 0 <= k < |back| ==> 0 <= back[k] < |toks| && dist[back[k]] == dist[dst] - k
    requires forall k :: 0 <= k < |back| - 1 ==> Edge(toks, back[k + 1], back[k])
    requires forall w :: Connects(toks, w, src, dst) ==> dist[dst] < |w|
    ensures IsShortestPath(toks, src, dst, Reversed(back)) && Reachable(toks, src, dst)
  {
    var p := Reversed(back);
    forall k | 0 <= k < |p| - 1 ensures Edge(toks, p[k], p[k + 1]) {
      assert p[k] == back[|back| - 1 - k] && p[k + 1] == back[|back| - 2 - k];
      assert Edge(toks, back[|back| - 1 - k], back[|back| - 2 - k]);
    }
    forall i, j | 0 <= i < j < |p| ensures p[i] != p[j] {
      assert dist[p[i]] == i && dist[p[j]] == j;
    }
    assert Connects(toks, p, src, dst);
  }

  /** The end of `getShortestPath` once `dst` is reached: the nodes from `dst` back to
      `src`, reversed. */
  method ReadPath(toks: seq<Token>, prev: array<int>, ghost dist: seq<int>, src: int, dst: int)
    returns (path: seq<int>)
    requires prev.Length == |toks| && Tree(toks, prev[..], dist, src)
    requires 0 <= dst < |toks| && prev[dst] != -1
    requires forall w :: Connects(toks, w, src, dst) ==> dist[dst] < |w|
    ensures IsShortestPath(toks, src, dst, path) && Reachable(toks, src, dst)
  {
    var back := WalkBack(toks, prev, dist, src, dst);
    ReadBackShortest(toks, back, dist, src, dst);
    path := Reversed(back);
  }

  /** `getShortestPath`: `None` (Java's `null`) exactly when `dst` cannot be reached from
      `src`; otherwise a shortest path from `src` to `dst`. */
  method ShortestPath(toks: seq<Token>, src: int, dst: int) returns (path: Option<seq<int>>)
    requires 0 <= src < |toks| && 0 <= dst < |toks|
    ensures path.None? <==> !Reachable(toks, src, dst)
    ensures path.Some? ==> IsShortestPath(toks, src, dst, path.value)
  {
    var n := |toks|;
    var adj := Adjacency(toks);
    var lists := adj[..];
    assert forall u, v :: 0 <= u < n && 0 <= v < n ==> (v in lists[u] <==> Edge(toks, u, v));
    assert forall u, j :: 0 <= u < n && 0 <= j < |lists[u]| ==> 0 <= lists[u][j] < n;
    var prev := new int[n](_ => -1);
    prev[src] := src;
    ghost var dist: seq<int> := seq(n, _ => 0);
    ghost var level := 0;
    ghost var found := false;
    var q := [src];
    while q != []
      invariant Tree(toks, prev[..], dist, src) && Frontier(prev[..], dist, q, level)
      invariant Closed(toks, prev[..], dist, q, -1)
      invariant !found
      decreases |Unvisited(prev[..])|, |q|
    {
      Dequeue(toks, prev[..], dist, q, level);
      var u := q[0];
      q := q[1..];
      level := dist[u];
      if u == dst {
        found := true;
        break;
      }
      ghost var before, q0 := prev[..], q;
      q, dist := Expand(toks, lists[u], prev, src, u, q, dist, level);
      UnvisitedShrinks(before, prev[..], if q == q0 then -1 else q[|q0|]);
    }
    ghost var visited := prev[..];
    if prev[dst] == -1 {
      Unreachable(toks, visited, dist, src, dst);
      return None;
    }
    if found {
      NoShorterWalk(toks, visited, dist, q, dst, src, dst);
    } else {
      NoShorterWalk(toks, visited, dist, [], -1, src, dst);
    }
    var p := ReadPath(toks, prev, dist, src, dst);
    path := Some(p);
  }
}
