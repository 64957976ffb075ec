/**
 The order in which the emitter visits blocks: a depth-first search that lists a
 block in front of everything it led to.
 */
module BlockOrder {
  import opened Common

  /** The successors of each block; block 0 is the entry. */
  type Graph = seq<seq<nat>>

  ghost predicate ValidGraph(g: Graph) {
    forall n, m :: 0 <= n < |g| && m in g[n] ==> m < |g|
  }

  predicate Distinct(s: seq<nat>) {
    forall i, j :: 0 <= i < j < |s| ==> s[i] != s[j]
  }

  predicate Below(s: seq<nat>, n: nat) {
    forall i :: 0 <= i < |s| ==> s[i] < n
  }

  lemma {:induction false} DistinctBound(s: seq<nat>, n: nat)
    requires Distinct(s) && Below(s, n)
    ensures |s| <= n
  {
    if n == 0 {
    } else if n - 1 in s {
      var k :| 0 <= k < |s| && s[k] == n - 1;
      DistinctBound(s[..k] + s[k + 1..], n - 1);
    } else {
      DistinctBound(s, n - 1);
    }
  }

  lemma {:induction false} DistinctCover(s: seq<nat>, n: nat, x: nat)
    requires Distinct(s) && Below(s, n) && |s| == n && x < n
    ensures x in s
  {
    if x !in s {
      DistinctBound(s + [x], n);
    }
  }

  function Without(s: seq<nat>, x: nat): (r: seq<nat>)
    ensures forall y :: y in r <==> y in s && y != x
  {
    if s == [] then [] else (if s[0] == x then [] else [s[0]]) + Without(s[1..], x)
  }

  /** The successors of a block other than itself. */
  function OutgoingEdges(g: Graph, node: nat): seq<nat>
    requires ValidGraph(g) && node < |g|
    ensures Below(OutgoingEdges(g, node), |g|)
    ensures forall m :: m in OutgoingEdges(g, node) <==> m in g[node] && m != node
  {
    var r := Without(g[node], node);
    assert forall i :: 0 <= i < |r| ==> r[i] in r;
    r
  }

  /** `path` is the chain of blocks being explored, innermost first. */
  function Explore(g: Graph, path: seq<nat>, visited: seq<nat>, node: nat): seq<nat>
    requires ValidGraph(g) && node < |g| && Distinct(path) && Below(path, |g|)
    decreases |g| - |path|, 0
  {
    if node in visited || node in path then visited
    else
      DistinctBound([node] + path, |g|);
      [node] + ExploreAll(g, [node] + path, visited, OutgoingEdges(g, node))
  }

  function ExploreAll(g: Graph, path: seq<nat>, visited: seq<nat>, edges: seq<nat>): seq<nat>
    requires ValidGraph(g) && Distinct(path) && Below(path, |g|) && Below(edges, |g|)
    decreases |g| - |path|, 1 + |edges|
  {
    DistinctBound(path, |g|);
    if edges == [] then visited
    else ExploreAll(g, path, Explore(g, path, visited, edges[0]), edges[1..])
  }

  /** The emission order; an empty function or an unreachable block aborts. */
  function SortBlocks(g: Graph): Result<seq<nat>>
    requires ValidGraph(g)
  {
    if |g| == 0 then Failure
    else
      var sorted := Explore(g, [], [], 0);
      if |sorted| == |g| then Success(sorted) else Failure
  }

  // ---------- Paths and dominance ----------

  /** A walk through the graph, listed from its last block back to the entry. */
  predicate IsPath(g: Graph, p: seq<nat>) {
    && |p| > 0
    && Below(p, |g|)
    && p[|p| - 1] == 0
    && forall i :: 0 <= i < |p| - 1 ==> p[i] in g[p[i + 1]]
  }

  ghost predicate Reachable(g: Graph, b: nat) {
    exists p :: IsPath(g, p) && p[0] == b
  }

  /** Every walk from the entry to `b` passes through `d`. */
  ghost predicate Dominates(g: Graph, d: nat, b: nat) {
    forall p :: IsPath(g, p) && p[0] == b ==> d in p
  }

  // ---------- What the search keeps ----------

  ghost predicate Closed(g: Graph, visited: seq<nat>, path: seq<nat>)
    requires Below(visited, |g|)
  {
    forall v, s :: v in visited && s in g[v] ==> s in visited || s in path
  }

  /** Each block comes after all its strict dominators, except those still being explored. */
  ghost predicate Ordered(g: Graph, visited: seq<nat>, path: seq<nat>) {
    forall i, d :: 0 <= i < |visited| && Dominates(g, d, visited[i]) && d != visited[i] ==>
      d in path || d in visited[..i]
  }

  ghost predicate Explored(g: Graph, visited: seq<nat>, path: seq<nat>) {
    && Distinct(visited)
    && Below(visited, |g|)
    && (forall i :: 0 <= i < |visited| ==> visited[i] !in path && Reachable(g, visited[i]))
    && Closed(g, visited, path)
    && Ordered(g, visited, path)
  }

  lemma ExploreSpec(g: Graph, path: seq<nat>, visited: seq<nat>, node: nat)
    requires ValidGraph(g) && node < |g| && Distinct(path) && Below(path, |g|)
    requires IsPath(g, [node] + path)
    requires Explored(g, visited, path)
    ensures var r := Explore(g, path, visited, node);
      && Explored(g, r, path)
      && (forall v :: v in visited ==> v in r)
      && (node in r || node in path)
      && (node !in path && node !in visited ==> r != [] && r[0] == node)
    decreases |g| - |path|, 0
  {
    if node in visited || node in path {
    } else {
      var path' := [node] + path;
      DistinctBound(path', |g|);
      var edges := OutgoingEdges(g, node);
      ExploreAllSpec(g, path', visited, node, edges);
      PrependKeeps(g, path, ExploreAll(g, path', visited, edges), node);
    }
  }

  lemma PrependKeeps(g: Graph, path: seq<nat>, r: seq<nat>, node: nat)
    requires ValidGraph(g) && node < |g|
    requires IsPath(g, [node] + path) && node !in path
    requires Explored(g, r, [node] + path)
    requires forall e :: e in OutgoingEdges(g, node) ==> e in r || e in [node] + path
    ensures Explored(g, [node] + r, path)
  {
    var r' := [node] + r;
    assert ([node] + path)[0] == node;
    assert node !in r;
    forall i, d | 0 <= i < |r'| && Dominates(g, d, r'[i]) && d != r'[i]
      ensures d in path || d in r'[..i]
    {
      if i == 0 {
        var walk := [node] + path;
        assert walk[0] == node && d in walk;
        assert d in path;
      } else {
        assert r'[i] == r[i - 1];
        assert r'[..i] == [node] + r[..i - 1];
        assert d in [node] + path || d in r[..i - 1];
      }
    }
    forall v, s | v in r' && s in g[v]
      ensures s in r' || s in path
    {
      if v == node {
        assert s != node ==> s in OutgoingEdges(g, node);
      }
    }
  }

  lemma ExploreAllSpec(g: Graph, path: seq<nat>, visited: seq<nat>, node: nat, edges: seq<nat>)
    requires ValidGraph(g) && |path| > 0 && path[0] == node && Distinct(path) && IsPath(g, path)
    requires Below(edges, |g|) && forall e :: e in edges ==> e in g[node]
    requires Explored(g, visited, path)
    ensures var r := ExploreAll(g, path, visited, edges);
      && Explored(g, r, path)
      && (forall v :: v in visited ==> v in r)
      && (forall e :: e in edges ==> e in r || e in path)
    decreases |g| - |path|, 1 + |edges|
  {
    DistinctBound(path, |g|);
    if edges != [] {
      var p := [edges[0]] + path;
      assert forall i :: 0 <= i < |p| - 1 ==> p[i] in g[p[i + 1]];
      ExploreSpec(g, path, visited, edges[0]);
      ExploreAllSpec(g, path, Explore(g, path, visited, edges[0]), node, edges[1..]);
    }
  }

  lemma {:induction false} ClosedContainsWalks(g: Graph, s: seq<nat>, p: seq<nat>)
    requires Below(s, |g|) && Closed(g, s, []) && 0 in s
    requires IsPath(g, p)
    ensures p[0] in s
  {
    if |p| > 1 {
      ClosedContainsWalks(g, s, p[1..]);
      assert p[0] in g[p[1]];
    }
  }

  lemma ReachableAreListed(g: Graph, r: seq<nat>, b: nat)
    requires Below(r, |g|) && Closed(g, r, []) && 0 in r && Reachable(g, b)
    ensures b in r
  {
    var p :| IsPath(g, p) && p[0] == b;
    ClosedContainsWalks(g, r, p);
  }

  ghost predicate ListsReachable(g: Graph, r: seq<nat>) {
    forall b: nat :: b in r <==> Reachable(g, b)
  }

  /** Each listed block comes after all its dominators. */
  ghost predicate AfterDominators(g: Graph, r: seq<nat>) {
    forall i, d :: 0 <= i < |r| && Dominates(g, d, r[i]) && d != r[i] ==> d in r[..i]
  }

  lemma ExploredAll(g: Graph, r: seq<nat>)
    requires Explored(g, r, []) && 0 in r
    ensures ListsReachable(g, r) && AfterDominators(g, r)
  {
    hide Dominates, Reachable, Closed;
    forall i, d | 0 <= i < |r| && Dominates(g, d, r[i]) && d != r[i] ensures d in r[..i] {
      var none: seq<nat> := [];
      assert d in none || d in r[..i];
    }
    forall b: nat ensures b in r <==> Reachable(g, b) {
      if b in r {
        var i :| 0 <= i < |r| && r[i] == b;
      } else if Reachable(g, b) {
        ReachableAreListed(g, r, b);
      }
    }
  }

  /** The search lists exactly the reachable blocks, once each, entry first, dominators before dominated. */
  lemma ExploreFromEntry(g: Graph)
    requires ValidGraph(g) && |g| > 0
    ensures var r := Explore(g, [], [], 0);
      && Distinct(r) && Below(r, |g|)
      && r != [] && r[0] == 0
      && ListsReachable(g, r) && AfterDominators(g, r)
  {
    assert [0] + [] == [0];
    hide Dominates, Reachable, Closed, Explore, Ordered;
    ExploreSpec(g, [], [], 0);
    ExploredAll(g, Explore(g, [], [], 0));
  }

  /** Sorting succeeds exactly when every block is reachable, and then lists each block once in dominance order. */
  lemma SortBlocksSpec(g: Graph)
    requires ValidGraph(g)
    ensures SortBlocks(g).Success? <==> |g| > 0 && forall b :: 0 <= b < |g| ==> Reachable(g, b)
    ensures SortBlocks(g).Success? ==>
      var r := SortBlocks(g).value;
      && Distinct(r) && Below(r, |g|) && |r| == |g|
      && r[0] == 0
      && (forall b :: 0 <= b < |g| ==> b in r)
      && AfterDominators(g, r)
  {
    hide Dominates, Reachable;
    if |g| > 0 {
      ExploreFromEntry(g);
      var r := Explore(g, [], [], 0);
      DistinctBound(r, |g|);
      if |r| == |g| {
        forall b | 0 <= b < |g| ensures b in r { DistinctCover(r, |g|, b); }
      } else if forall b :: 0 <= b < |g| ==> Reachable(g, b) {
        AllListed(r, |g|);
      }
    }
  }

  lemma {:induction false} AllListed(s: seq<nat>, n: nat)
    requires Distinct(s) && Below(s, n) && forall b :: 0 <= b < n ==> b in s
    ensures |s| == n
  {
    DistinctBound(s, n);
    if n > 0 {
      assert n - 1 in s;
      var k :| 0 <= k < |s| && s[k] == n - 1;
      var s' := s[..k] + s[k + 1..];
      forall b | 0 <= b < n - 1 ensures b in s' {
        assert b in s;
        var i :| 0 <= i < |s| && s[i] == b;
        assert s'[if i < k then i else i - 1] == b;
      }
      AllListed(s', n - 1);
    }
  }
}
