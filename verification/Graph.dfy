/** The dependency graph of test methods: shortest paths, and the random walk that makes
    up a chain of tests. */
module Graph {
  import opened Options

  type Node = string

  datatype Edge = Edge(to: Node, score: int)

  type Graph = map<Node, seq<Edge>>

  /** There is an edge with a positive score. */
  predicate Linked(g: Graph, a: Node, b: Node) {
    a in g && exists k :: 0 <= k < |g[a]| && g[a][k].to == b && g[a][k].score > 0
  }

  /** A walk along positive-score edges. */
  ghost predicate Walk(g: Graph, p: seq<Node>) {
    p != [] && forall i :: 0 <= i < |p| - 1 ==> Linked(g, p[i], p[i + 1])
  }

  /** No node strictly inside the walk is ignored. */
  ghost predicate Avoids(p: seq<Node>, ignored: set<Node>) {
    forall i :: 0 < i < |p| - 1 ==> p[i] !in ignored
  }

  /** A walk of at least one edge from `start` to `end`, avoiding `ignored` inside. */
  ghost predicate Route(g: Graph, start: Node, end: Node, ignored: set<Node>, p: seq<Node>) {
    && |p| >= 2 && p[0] == start && p[|p| - 1] == end
    && Walk(g, p) && Avoids(p, ignored)
  }

  /** All nodes: those with edges and those edges lead to. */
  ghost function Nodes(g: Graph): set<Node> {
    g.Keys + set n, k | n in g && 0 <= k < |g[n]| :: g[n][k].to
  }

  // ----- breadth-first search -----

  /** A node to look at, and the walk that leads to it. */
  datatype Visit = Visit(node: Node, ancestors: seq<Node>)

  ghost predicate Queued(queue: seq<Visit>, n: Node, depth: nat) {
    exists k :: 0 <= k < |queue| && queue[k].node == n && |queue[k].ancestors| <= depth
  }

  /** Entries hold walks from the start, by length, the longest at most one longer than
      the shortest. */
  ghost predicate GoodQueue(g: Graph, start: Node, ignored: set<Node>, queue: seq<Visit>) {
    && (forall k :: 0 <= k < |queue| ==>
          && queue[k].ancestors != [] && queue[k].ancestors[0] == start
          && Walk(g, queue[k].ancestors + [queue[k].node])
          && Avoids(queue[k].ancestors + [queue[k].node], ignored)
          && queue[k].node in Nodes(g))
    && (forall k, l :: 0 <= k < l < |queue| ==> |queue[k].ancestors| <= |queue[l].ancestors|)
    && (forall k :: 0 <= k < |queue| ==> |queue[k].ancestors| <= |queue[0].ancestors| + 1)
  }

  /** A node at depth `depth` is dealt with: ignored, expanded from no deeper, or waiting. */
  ghost predicate Handled(depths: map<Node, nat>, ignored: set<Node>, queue: seq<Visit>, n: Node, depth: nat, end: Node) {
    || (n != end && n in ignored)
    || (n in depths && depths[n] <= depth)
    || Queued(queue, n, depth)
  }

  /** The search has expanded the nodes of `depths`, each at the depth given there. */
  ghost predicate Searching(g: Graph, start: Node, end: Node, ignored: set<Node>,
                            queue: seq<Visit>, depths: map<Node, nat>) {
    && GoodQueue(g, start, ignored, queue)
    && end !in depths && depths.Keys <= Nodes(g)
    && (forall n, k :: n in depths && 0 <= k < |queue| ==> depths[n] <= |queue[k].ancestors|)
    && (forall n :: Linked(g, start, n) ==> Handled(depths, ignored, queue, n, 1, end))
    && (forall m, n :: m in depths && Linked(g, m, n) ==> Handled(depths, ignored, queue, n, depths[m] + 1, end))
  }

  /** Along any route there is an entry in the queue at most as deep as the route. */
  lemma {:induction false} FrontierOnRoute(g: Graph, start: Node, end: Node, ignored: set<Node>,
                                           queue: seq<Visit>, depths: map<Node, nat>, p: seq<Node>, i: nat)
    requires Searching(g, start, end, ignored, queue, depths) && Route(g, start, end, ignored, p)
    requires 1 <= i < |p|
    ensures (exists j :: 1 <= j <= i && Queued(queue, p[j], j)) || (p[i] in depths && depths[p[i]] <= i)
  {
    assert Linked(g, p[i - 1], p[i]);
    if i == 1 {
      assert Handled(depths, ignored, queue, p[1], 1, end);
    } else {
      FrontierOnRoute(g, start, end, ignored, queue, depths, p, i - 1);
      if !(exists j :: 1 <= j <= i - 1 && Queued(queue, p[j], j)) {
        assert Handled(depths, ignored, queue, p[i], depths[p[i - 1]] + 1, end);
        if Queued(queue, p[i], depths[p[i - 1]] + 1) {
          assert Queued(queue, p[i], i);
        }
      }
    }
  }

  /** So the first entry of the queue is no deeper than any route is long. */
  lemma NoRouteIsShorter(g: Graph, start: Node, end: Node, ignored: set<Node>,
                         queue: seq<Visit>, depths: map<Node, nat>, p: seq<Node>)
    requires Searching(g, start, end, ignored, queue, depths) && Route(g, start, end, ignored, p)
    ensures queue != [] && |queue[0].ancestors| < |p|
  {
    FrontierOnRoute(g, start, end, ignored, queue, depths, p, |p| - 1);
    var j :| 1 <= j <= |p| - 1 && Queued(queue, p[j], j);
  }

  /** The positive-score edges of node `ancestors[last]`, as entries. */
  method Expand(g: Graph, ancestors: seq<Node>) returns (entries: seq<Visit>)
    requires ancestors != []
    ensures forall k :: 0 <= k < |entries| ==>
              entries[k].ancestors == ancestors && Linked(g, ancestors[|ancestors| - 1], entries[k].node)
    ensures forall n :: Linked(g, ancestors[|ancestors| - 1], n) ==> Queued(entries, n, |ancestors|)
  {
    entries := [];
    var node := ancestors[|ancestors| - 1];
    if node in g {
      for i := 0 to |g[node]|
        invariant forall k :: 0 <= k < |entries| ==>
                    entries[k].ancestors == ancestors && Linked(g, node, entries[k].node)
        invariant forall j :: 0 <= j < i && g[node][j].score > 0 ==> Queued(entries, g[node][j].to, |ancestors|)
      {
        if g[node][i].score > 0 {
          var more := entries + [Visit(g[node][i].to, ancestors)];
          assert more[|entries|].node == g[node][i].to;
          QueuedMore(entries, more);
          entries := more;
        }
      }
    }
  }

  lemma QueuedMore(queue: seq<Visit>, more: seq<Visit>)
    requires queue <= more
    ensures forall n, d: nat :: Queued(queue, n, d) ==> Queued(more, n, d)
  {
    forall n, d: nat | Queued(queue, n, d) ensures Queued(more, n, d) {
      var k :| 0 <= k < |queue| && queue[k].node == n && |queue[k].ancestors| <= d;
      assert more[k] == queue[k];
    }
  }

  /** Taking the first entry off leaves what it stood for handled, if its node is. */
  lemma HandledAfterPop(queue: seq<Visit>, rest: seq<Visit>, depths: map<Node, nat>, more: map<Node, nat>,
                        ignored: set<Node>, n: Node, depth: nat, end: Node)
    requires queue != [] && queue[1..] <= rest && Handled(depths, ignored, queue, n, depth, end)
    requires forall m :: m in depths ==> m in more && more[m] == depths[m]
    requires queue[0].node != end
    requires queue[0].node in ignored || (queue[0].node in more && more[queue[0].node] <= |queue[0].ancestors|)
    ensures Handled(more, ignored, rest, n, depth, end)
  {
    if Queued(queue, n, depth) {
      var k :| 0 <= k < |queue| && queue[k].node == n && |queue[k].ancestors| <= depth;
      if k > 0 {
        assert rest[k - 1] == queue[1..][k - 1] == queue[k];
      }
    }
  }

  lemma PopVisited(g: Graph, start: Node, end: Node, ignored: set<Node>, queue: seq<Visit>, depths: map<Node, nat>)
    requires Searching(g, start, end, ignored, queue, depths) && queue != [] && queue[0].node != end
    requires queue[0].node in ignored || queue[0].node in depths
    ensures Searching(g, start, end, ignored, queue[1..], depths)
  {
    var rest := queue[1..];
    assert forall k :: 0 <= k < |rest| ==> rest[k] == queue[k + 1];
    forall n | Linked(g, start, n) ensures Handled(depths, ignored, rest, n, 1, end) {
      HandledAfterPop(queue, rest, depths, depths, ignored, n, 1, end);
    }
    forall m, n | m in depths && Linked(g, m, n) ensures Handled(depths, ignored, rest, n, depths[m] + 1, end) {
      HandledAfterPop(queue, rest, depths, depths, ignored, n, depths[m] + 1, end);
    }
  }

  /** The entries made from the first one follow the rest of the queue. */
  lemma ExpandQueue(g: Graph, start: Node, ignored: set<Node>, queue: seq<Visit>, entries: seq<Visit>)
    requires GoodQueue(g, start, ignored, queue) && queue != [] && queue[0].node !in ignored
    requires forall k :: 0 <= k < |entries| ==>
               entries[k].ancestors == queue[0].ancestors + [queue[0].node] && Linked(g, queue[0].node, entries[k].node)
    ensures GoodQueue(g, start, ignored, queue[1..] + entries)
  {
    var rest, path := queue[1..], queue[0].ancestors + [queue[0].node];
    assert forall k :: 0 <= k < |rest| ==> rest[k] == queue[k + 1];
    forall k | 0 <= k < |entries|
      ensures Walk(g, path + [entries[k].node]) && Avoids(path + [entries[k].node], ignored)
      ensures entries[k].node in Nodes(g)
    {
      var longer := path + [entries[k].node];
      forall i | 0 <= i < |longer| - 1 ensures Linked(g, longer[i], longer[i + 1]) {
        if i < |path| - 1 {
          assert Linked(g, path[i], path[i + 1]);
        }
      }
    }
  }

  lemma PopExpanded(g: Graph, start: Node, end: Node, ignored: set<Node>, queue: seq<Visit>, depths: map<Node, nat>,
                    entries: seq<Visit>)
    requires Searching(g, start, end, ignored, queue, depths) && queue != [] && queue[0].node != end
    requires queue[0].node !in ignored && queue[0].node !in depths
    requires forall k :: 0 <= k < |entries| ==>
               entries[k].ancestors == queue[0].ancestors + [queue[0].node] && Linked(g, queue[0].node, entries[k].node)
    requires forall n :: Linked(g, queue[0].node, n) ==> Queued(entries, n, |queue[0].ancestors| + 1)
    ensures Searching(g, start, end, ignored, queue[1..] + entries, depths[queue[0].node := |queue[0].ancestors|])
  {
    var node, depth := queue[0].node, |queue[0].ancestors|;
    var rest, more := queue[1..] + entries, depths[node := depth];
    ExpandQueue(g, start, ignored, queue, entries);
    assert forall k :: 0 <= k < |queue| - 1 ==> rest[k] == queue[k + 1];
    assert forall k :: |queue| - 1 <= k < |rest| ==> rest[k] == entries[k - (|queue| - 1)];
    forall n | Linked(g, start, n) ensures Handled(more, ignored, rest, n, 1, end) {
      HandledAfterPop(queue, rest, depths, more, ignored, n, 1, end);
    }
    forall m, n | m in more && Linked(g, m, n) ensures Handled(more, ignored, rest, n, more[m] + 1, end) {
      HandledAfterExpand(g, queue, depths, entries, ignored, m, n, end);
    }
  }

  lemma HandledAfterExpand(g: Graph, queue: seq<Visit>, depths: map<Node, nat>, entries: seq<Visit>, ignored: set<Node>,
                           m: Node, n: Node, end: Node)
    requires queue != [] && queue[0].node != end && queue[0].node !in depths && Linked(g, m, n)
    requires m in depths || m == queue[0].node
    requires m in depths ==> Handled(depths, ignored, queue, n, depths[m] + 1, end)
    requires m == queue[0].node ==> Queued(entries, n, |queue[0].ancestors| + 1)
    ensures var more := depths[queue[0].node := |queue[0].ancestors|];
            Handled(more, ignored, queue[1..] + entries, n, more[m] + 1, end)
  {
    var more, rest := depths[queue[0].node := |queue[0].ancestors|], queue[1..] + entries;
    if m == queue[0].node {
      QueuedLater(queue[1..], entries, n, |queue[0].ancestors| + 1);
    } else {
      HandledAfterPop(queue, rest, depths, more, ignored, n, depths[m] + 1, end);
    }
  }

  lemma QueuedLater(a: seq<Visit>, b: seq<Visit>, n: Node, depth: nat)
    requires Queued(b, n, depth)
    ensures Queued(a + b, n, depth)
  {
    var k :| 0 <= k < |b| && b[k].node == n && |b[k].ancestors| <= depth;
    assert (a + b)[|a| + k] == b[k];
  }

  datatype Found = Path(path: seq<Node>) | NoPath | UnknownStart

  /** The shortest walk of at least one positive-score edge from `start` to `end` whose inner
      nodes are not ignored.  Fails only when the graph does not know `start`. */
  method ShortestPath(g: Graph, start: Node, end: Node, ignored: set<Node>) returns (r: Found)
    ensures r == UnknownStart <==> start !in g
    ensures r.Path? ==> Route(g, start, end, ignored, r.path)
    ensures r.Path? ==> forall p :: Route(g, start, end, ignored, p) ==> |r.path| <= |p|
    ensures r == NoPath ==> forall p :: !Route(g, start, end, ignored, p)
  {
    if start !in g {
      return UnknownStart;
    }
    var visited := ignored;
    ghost var depths: map<Node, nat> := map[];
    var queue := Expand(g, [start]);
    SearchStarts(g, start, end, ignored, queue);
    while queue != []
      invariant Searching(g, start, end, ignored, queue, depths)
      invariant visited == ignored + depths.Keys
      decreases Nodes(g) - depths.Keys, |queue|
    {
      var visit := queue[0];
      if visit.node == end {
        forall p | Route(g, start, end, ignored, p) ensures |visit.ancestors| < |p| {
          NoRouteIsShorter(g, start, end, ignored, queue, depths, p);
        }
        return Path(visit.ancestors + [end]);
      }
      if visit.node in visited {
        PopVisited(g, start, end, ignored, queue, depths);
        queue := queue[1..];
      } else {
        var entries := Expand(g, visit.ancestors + [visit.node]);
        PopExpanded(g, start, end, ignored, queue, depths, entries);
        assert visit.node in Nodes(g) - depths.Keys;
        visited := visited + {visit.node};
        depths := depths[visit.node := |visit.ancestors|];
        assert visit.node !in Nodes(g) - depths.Keys;
        queue := queue[1..] + entries;
      }
    }
    forall p ensures !Route(g, start, end, ignored, p) {
      if Route(g, start, end, ignored, p) {
        NoRouteIsShorter(g, start, end, ignored, queue, depths, p);
      }
    }
    r := NoPath;
  }

  lemma SearchStarts(g: Graph, start: Node, end: Node, ignored: set<Node>, queue: seq<Visit>)
    requires forall k :: 0 <= k < |queue| ==> queue[k].ancestors == [start] && Linked(g, start, queue[k].node)
    requires forall n :: Linked(g, start, n) ==> Queued(queue, n, 1)
    ensures Searching(g, start, end, ignored, queue, map[])
  {
  }

  // ----- random walk -----

  /** Sum of the scores of the first `k` edges. */
  ghost function Sum(edges: seq<Edge>, k: nat): int
    requires k <= |edges|
  {
    if k == 0 then 0 else Sum(edges, k - 1) + edges[k - 1].score
  }

  method NodeListSum(edges: seq<Edge>) returns (sum: int)
    ensures sum == Sum(edges, |edges|)
  {
    sum := 0;
    for i := 0 to |edges|
      invariant sum == Sum(edges, i)
    {
      sum := sum + edges[i].score;
    }
  }

  /** Edge `i` is the first at which the scores add up to `hit`. */
  ghost predicate Picks(edges: seq<Edge>, hit: int, i: nat) {
    && i < |edges| && hit <= Sum(edges, i + 1)
    && forall k :: 1 <= k <= i ==> Sum(edges, k) < hit
  }

  method NodeByRangeHit(edges: seq<Edge>, hit: int) returns (r: Option<Node>, ghost at: nat)
    ensures r.Some? ==> Picks(edges, hit, at) && r.value == edges[at].to
    ensures r.None? ==> forall k :: 1 <= k <= |edges| ==> Sum(edges, k) < hit
  {
    var left := hit;
    at := 0;
    for i := 0 to |edges|
      invariant left == hit - Sum(edges, i)
      invariant forall k :: 1 <= k <= i ==> Sum(edges, k) < hit
    {
      left := left - edges[i].score;
      if left <= 0 {
        return Some(edges[i].to), i;
      }
    }
    r := None;
  }

  /** A hit of at least one only picks positive-score edges. */
  lemma PickIsPositive(edges: seq<Edge>, hit: int, i: nat)
    requires Picks(edges, hit, i) && hit >= 1
    ensures edges[i].score > 0
  {
    assert Sum(edges, i + 1) == Sum(edges, i) + edges[i].score;
    if i > 0 {
      assert Sum(edges, i) < hit;
    }
  }

  ghost predicate NoNegatives(edges: seq<Edge>) {
    forall k :: 0 <= k < |edges| ==> edges[k].score >= 0
  }

  lemma {:induction false} SumOfNonNegatives(edges: seq<Edge>, k: nat)
    requires NoNegatives(edges) && k <= |edges|
    ensures 0 <= Sum(edges, k)
    ensures Sum(edges, k) == 0 <==> forall i :: 0 <= i < k ==> edges[i].score == 0
  {
    if k > 0 {
      SumOfNonNegatives(edges, k - 1);
    }
  }

  /** A random walk through the graph; `current` is the node returned next. */
  class Walker {
    const g: Graph
    var current: Option<Node>

    constructor (g: Graph, start: Option<Node>)
      ensures this.g == g && current == start
    {
      this.g := g;
      current := start;
    }

    /** Return the current node and move on, to nowhere when stopped or out of edges.  The
        move follows a positive-score edge whenever the scores add up to more than nothing;
        when all scores are 0 it follows one of score 0. */
    method Next(stop: bool) returns (node: Option<Node>)
      modifies this
      ensures node == old(current)
      ensures node.None? ==> current.None?
      ensures node.Some? && node.value in g && !stop && Sum(g[node.value], |g[node.value]|) > 0 ==>
                current.Some? && Linked(g, node.value, current.value)
      ensures node.Some? && node.value in g && !stop && NoNegatives(g[node.value]) && g[node.value] != [] ==>
                (current.Some? && Linked(g, node.value, current.value)
                 <==> Sum(g[node.value], |g[node.value]|) > 0)
      ensures node.Some? && (stop || node.value !in g || g[node.value] == []) ==> current.None?
    {
      node := current;
      if stop || current.None? || current.value !in g {
        current := None;
        return;
      }
      var edges := g[current.value];
      var sum := NodeListSum(edges);
      var key := sum;
      if sum > 1 {
        key :| 1 <= key <= sum;
      }
      ghost var at;
      current, at := NodeByRangeHit(edges, key);
      if sum > 0 {
        if current.Some? {
          PickIsPositive(edges, key, at);
        }
      } else if NoNegatives(edges) {
        SumOfNonNegatives(edges, |edges|);
      }
    }
  }
}
