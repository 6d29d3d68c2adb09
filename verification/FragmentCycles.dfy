// The cycle detector of ValidateFragmentCycles (packages/houdini-core/plugin/documents/validate.go):
// a depth-first search with visited, on-stack and path state over the fragment spreads.
// The rule is section 5.5.2.2 of the GraphQL specification (October 2021).
module FragmentCycles {
  /** One spread: the fragment it names and where it stands. */
  datatype Edge = Edge(target: string, location: int)
  datatype Spread = Spread(source: string, edge: Edge)
  type Graph = map<string, seq<Edge>>

  /** A reported cycle and the location of the spread that closes it. */
  datatype Report = Report(cycle: seq<string>, location: int)

  ghost predicate HasEdge(g: Graph, a: string, b: string)
  {
    a in g && exists e :: e in g[a] && e.target == b
  }

  /** Every target is a node of its own. */
  ghost predicate Closed(g: Graph)
  {
    forall a, e :: a in g && e in g[a] ==> e.target in g
  }

  /** c[0] -> c[1] -> ... -> c[|c| - 1] -> c[0], nodes may repeat. */
  ghost predicate IsCycle(g: Graph, c: seq<string>)
  {
    && |c| > 0
    && (forall k :: 0 <= k < |c| - 1 ==> HasEdge(g, c[k], c[k + 1]))
    && HasEdge(g, c[|c| - 1], c[0])
  }

  ghost predicate IsChain(g: Graph, p: seq<string>)
  {
    forall k :: 0 <= k < |p| - 1 ==> HasEdge(g, p[k], p[k + 1])
  }

  ghost predicate Distinct(p: seq<string>)
  {
    forall i, j :: 0 <= i < j < |p| ==> p[i] != p[j]
  }

  /** The report is a simple cycle of the graph, closed by the spread at its location. */
  ghost predicate Genuine(g: Graph, r: Report)
  {
    && IsCycle(g, r.cycle) && Distinct(r.cycle)
    && r.cycle[|r.cycle| - 1] in g && Edge(r.cycle[0], r.location) in g[r.cycle[|r.cycle| - 1]]
  }

  /** Some report is closed by the spread from a to b. */
  ghost predicate ClosedBy(reports: seq<Report>, a: string, b: string)
  {
    exists r :: r in reports && |r.cycle| > 0 && r.cycle[|r.cycle| - 1] == a && r.cycle[0] == b
  }

  /** The cycle runs through an edge that closes a report. */
  ghost predicate Hit(reports: seq<Report>, c: seq<string>)
    requires |c| > 0
  {
    || (exists k :: 0 <= k < |c| - 1 && ClosedBy(reports, c[k], c[k + 1]))
    || ClosedBy(reports, c[|c| - 1], c[0])
  }

  /** The edges of a source, in the order of the spreads. */
  function EdgesFrom(spreads: seq<Spread>, a: string): seq<Edge>
  {
    if spreads == [] then []
    else
      var last := spreads[|spreads| - 1];
      EdgesFrom(spreads[..|spreads| - 1], a) + if last.source == a then [last.edge] else []
  }

  ghost predicate Mentioned(spreads: seq<Spread>, a: string)
  {
    exists s :: s in spreads && (s.source == a || s.edge.target == a)
  }

  /** The nodes are the sources and targets, and each has its edges. */
  ghost predicate Adjacency(spreads: seq<Spread>, g: Graph)
  {
    && (forall a :: a in g <==> Mentioned(spreads, a))
    && (forall a :: a in g ==> g[a] == EdgesFrom(spreads, a))
  }

  lemma {:induction false} EdgesFromHas(spreads: seq<Spread>, a: string, e: Edge)
    ensures e in EdgesFrom(spreads, a) <==> Spread(a, e) in spreads
  {
    if spreads != [] {
      var init, last := spreads[..|spreads| - 1], spreads[|spreads| - 1];
      EdgesFromHas(init, a, e);
      assert spreads == init + [last];
    }
  }

  lemma {:induction false} NotASource(spreads: seq<Spread>, a: string)
    requires !Mentioned(spreads, a)
    ensures EdgesFrom(spreads, a) == []
  {
    if spreads != [] {
      var init, last := spreads[..|spreads| - 1], spreads[|spreads| - 1];
      assert last in spreads && forall s :: s in init ==> s in spreads;
      NotASource(init, a);
    }
  }

  lemma MentionedSnoc(spreads: seq<Spread>, s: Spread, a: string)
    ensures Mentioned(spreads + [s], a) <==> Mentioned(spreads, a) || s.source == a || s.edge.target == a
  {
    assert s in spreads + [s];
    assert forall x :: x in spreads ==> x in spreads + [s];
  }

  lemma EdgesFromSnoc(spreads: seq<Spread>, s: Spread, a: string)
    ensures EdgesFrom(spreads + [s], a) == EdgesFrom(spreads, a) + if s.source == a then [s.edge] else []
  {
    assert (spreads + [s])[..|spreads|] == spreads;
  }

  lemma OneMoreSpread(spreads: seq<Spread>, g: Graph, s: Spread, more: Graph)
    requires Adjacency(spreads, g) && more.Keys == g.Keys + {s.source, s.edge.target}
    requires more[s.source] == (if s.source in g then g[s.source] else []) + [s.edge]
    requires forall a :: a in more && a != s.source ==> more[a] == if a in g then g[a] else []
    ensures Adjacency(spreads + [s], more)
  {
    hide EdgesFrom, Mentioned;
    forall a ensures a in more <==> Mentioned(spreads + [s], a) { MentionedSnoc(spreads, s, a); }
    forall a | a in more ensures more[a] == EdgesFrom(spreads + [s], a) {
      EdgesFromSnoc(spreads, s, a);
      if a !in g { NotASource(spreads, a); }
    }
  }

  lemma AdjacencyCloses(spreads: seq<Spread>, g: Graph)
    requires Adjacency(spreads, g)
    ensures Closed(g)
  {
    forall a, e ensures a in g && e in g[a] ==> Spread(a, e) in spreads { EdgesFromHas(spreads, a, e); }
    forall a, e | a in g && e in g[a] ensures e.target in g {
      assert Spread(a, e) in spreads;
      assert Mentioned(spreads, e.target);
    }
  }

  /** Builds the adjacency lists; every target becomes a node. */
  method BuildGraph(spreads: seq<Spread>) returns (g: Graph)
    ensures Closed(g)
    ensures forall a :: a in g <==> Mentioned(spreads, a)
    ensures forall a :: a in g ==> g[a] == EdgesFrom(spreads, a)
    ensures forall a, e :: Spread(a, e) in spreads <==> a in g && e in g[a]
  {
    hide Mentioned, EdgesFrom, Closed;
    g := map[];
    NothingYet();
    for i := 0 to |spreads|
      invariant Adjacency(spreads[..i], g)
    {
      var s := spreads[i];
      ghost var before := g;
      var edges := if s.source in g then g[s.source] else [];
      g := g[s.source := edges + [s.edge]];
      if s.edge.target !in g {
        g := g[s.edge.target := []];
      }
      assert spreads[..i + 1] == spreads[..i] + [s];
      OneMoreSpread(spreads[..i], before, s, g);
    }
    assert spreads[..|spreads|] == spreads;
    AdjacencyCloses(spreads, g);
    forall a, e ensures Spread(a, e) in spreads <==> a in g && e in g[a] {
      EdgesFromHas(spreads, a, e);
      SourceIsMentioned(spreads, a, e);
    }
  }

  lemma NothingYet()
    ensures Adjacency([], map[])
  {}

  lemma SourceIsMentioned(spreads: seq<Spread>, a: string, e: Edge)
    ensures Spread(a, e) in spreads ==> Mentioned(spreads, a)
  {
    if Spread(a, e) in spreads { assert Spread(a, e).source == a; }
  }

  /** The closing spreads, by source and number: the k-th report is closed by the k-th of them, and
      none closes two reports. */
  ghost predicate Counted(g: Graph, reports: seq<Report>, closers: seq<(string, nat)>)
  {
    && |closers| == |reports|
    && (forall i, j :: 0 <= i < j < |closers| ==> closers[i] != closers[j])
    && forall k :: 0 <= k < |closers| ==> Closes(g, reports[k], closers[k])
  }

  ghost predicate Closes(g: Graph, r: Report, c: (string, nat))
  {
    && c.0 in g && c.1 < |g[c.0]| && |r.cycle| > 0
    && r.cycle[|r.cycle| - 1] == c.0 && g[c.0][c.1] == Edge(r.cycle[0], r.location)
  }

  /** Exactly the spreads of n to nodes that finished no earlier close a report. */
  ghost predicate Settled(g: Graph, closers: seq<(string, nat)>, n: string, before: seq<string>)
  {
    n in g && forall j :: 0 <= j < |g[n]| ==> ((n, j) in closers <==> g[n][j].target !in before)
  }

  /** The spreads found so far to close a report lead back to the node itself or up the path. */
  ghost predicate Upward(g: Graph, closers: seq<(string, nat)>, path: seq<string>, a: nat)
    requires a < |path|
  {
    path[a] in g && forall j :: 0 <= j < |g[path[a]]| && (path[a], j) in closers ==> g[path[a]][j].target in path[..a + 1]
  }

  lemma CountedMore(g: Graph, reports: seq<Report>, closers: seq<(string, nat)>, r: Report, c: (string, nat))
    requires Counted(g, reports, closers) && c !in closers && Closes(g, r, c)
    ensures Counted(g, reports + [r], closers + [c])
  {
    var all, more := closers + [c], reports + [r];
    assert forall k :: 0 <= k < |closers| ==> all[k] == closers[k] && more[k] == reports[k];
  }

  class Detector {
    const graph: Graph
    var visited: set<string>
    var onStack: set<string>
    var cycles: seq<Report>
    ghost var finished: seq<string> // nodes in the order their search ended
    ghost var closers: seq<(string, nat)> // the spreads that closed the reports

    constructor (graph: Graph)
      ensures this.graph == graph
      ensures visited == {} && onStack == {} && cycles == [] && finished == [] && closers == []
    {
      this.graph := graph;
      visited, onStack, cycles, finished, closers := {}, {}, [], [], [];
    }

    /** Between searches: visited nodes are on the current path or finished, every report is genuine
        and closed by a spread of its own, and a spread of a finished node leads to an earlier
        finished one exactly if it closes no report. */
    ghost predicate Valid(path: seq<string>)
      reads this
    {
      && Closed(graph)
      && onStack == (set n | n in path) && Distinct(path) && IsChain(graph, path)
      && visited == onStack + (set n | n in finished) && visited <= graph.Keys
      && (forall n :: n in finished ==> n !in onStack) && Distinct(finished)
      && (forall r :: r in cycles ==> Genuine(graph, r))
      && Counted(graph, cycles, closers) && (forall c :: c in closers ==> c.0 in visited)
      && (forall k :: 0 <= k < |finished| ==> Settled(graph, closers, finished[k], finished[..k]))
      && (forall a :: 0 <= a < |path| ==> Upward(graph, closers, path, a))
    }

    /** The first i spreads of n have been looked at: those that closed no report lead to finished
        nodes. */
    ghost predicate SettledUpTo(n: string, i: nat)
      requires n in graph && i <= |graph[n]|
      reads this
    {
      && (forall j :: 0 <= j < i ==> (n, j) in closers || graph[n][j].target in finished)
      && forall j: nat :: i <= j ==> (n, j) !in closers
    }

    /** Whatever was added is about nodes that had not been visited. */
    ghost predicate AddsNew(before: seq<(string, nat)>, seen: set<string>)
      reads this
    {
      before <= closers && forall k :: |before| <= k < |closers| ==> closers[k].0 !in seen
    }

    /** dfs */
    method Dfs(node: string, path0: seq<string>)
      requires Valid(path0) && node in graph && node !in visited
      requires |path0| > 0 ==> HasEdge(graph, path0[|path0| - 1], node)
      modifies this
      ensures Valid(path0) && AddsNew(old(closers), old(visited))
      ensures old(visited) < visited && node in finished
      ensures old(cycles) <= cycles && old(finished) <= finished
      decreases graph.Keys - visited, 0
    {
      Enter(node, path0);
      var path := path0 + [node];
      var i := 0;
      while i < |graph[node]|
        invariant 0 <= i <= |graph[node]|
        invariant Valid(path) && AddsNew(old(closers), old(visited))
        invariant old(visited) + {node} <= visited && old(cycles) <= cycles && old(finished) <= finished
        invariant SettledUpTo(node, i)
      {
        EdgeStep(node, path, i);
        i := i + 1;
      }
      Leave(node, path0);
    }

    method Enter(node: string, path0: seq<string>)
      requires Valid(path0) && node in graph && node !in visited
      requires |path0| > 0 ==> HasEdge(graph, path0[|path0| - 1], node)
      modifies this`visited, this`onStack
      ensures Valid(path0 + [node]) && visited == old(visited) + {node} && SettledUpTo(node, 0)
    {
      visited := visited + {node};
      onStack := onStack + {node};
      var path := path0 + [node];
      forall k | 0 <= k < |path| - 1 ensures HasEdge(graph, path[k], path[k + 1]) {
        if k < |path0| - 1 { assert HasEdge(graph, path0[k], path0[k + 1]); }
      }
      assert forall n :: n in path <==> n in path0 || n == node;
      UpwardInner(graph, closers, path0, node);
    }

    method Leave(node: string, path0: seq<string>)
      requires Valid(path0 + [node]) && node in graph && SettledUpTo(node, |graph[node]|)
      modifies this`onStack, this`finished
      ensures Valid(path0) && finished == old(finished) + [node]
    {
      var path := path0 + [node];
      assert path[|path0|] == node && node in path;
      assert IsChain(graph, path0) by {
        forall k | 0 <= k < |path0| - 1 ensures HasEdge(graph, path0[k], path0[k + 1]) {
          assert HasEdge(graph, path[k], path[k + 1]);
        }
      }
      assert forall k :: 0 <= k < |path0| ==> path0[k] == path[k];
      assert forall n :: n in path <==> n in path0 || n == node;
      UpwardOuter(graph, closers, path0, node);
      assert Settled(graph, closers, node, finished) by {
        assert Upward(graph, closers, path, |path0|) && path[..|path0| + 1] == path;
      }
      onStack := onStack - {node};
      SettledMore(graph, closers, finished, node);
      finished := finished + [node];
    }

    /** One edge of the node under search: go down, report a cycle, or skip it. */
    method EdgeStep(node: string, path: seq<string>, i: nat)
      requires Valid(path) && |path| > 0 && path[|path| - 1] == node && node in graph
      requires i < |graph[node]| && SettledUpTo(node, i)
      modifies this
      ensures Valid(path) && SettledUpTo(node, i + 1) && AddsNew(old(closers), old(visited) - {node})
      ensures old(visited) <= visited && old(cycles) <= cycles && old(finished) <= finished
      decreases graph.Keys - visited, 1
    {
      var e := graph[node][i];
      assert HasEdge(graph, node, e.target) && node in onStack;
      if e.target !in visited {
        Dfs(e.target, path);
        assert forall j :: 0 <= j <= i && (node, j) in old(closers) ==> (node, j) in closers;
      } else if e.target in onStack {
        Close(node, path, i);
      }
    }

    /** Records the part of the path from the target on. */
    method Close(node: string, path: seq<string>, i: nat)
      requires Valid(path) && |path| > 0 && path[|path| - 1] == node && node in graph
      requires i < |graph[node]| && graph[node][i].target in onStack && (node, i) !in closers
      modifies this`cycles, this`closers
      ensures Valid(path) && old(cycles) <= cycles && closers == old(closers) + [(node, i)]
    {
      var e := graph[node][i];
      var from := 0;
      while path[from] != e.target
        invariant 0 <= from < |path|
        invariant e.target in path[from..]
        decreases |path| - from
      {
        from := from + 1;
      }
      var report := Report(path[from..], e.location);
      assert Genuine(graph, report) by {
        forall k | 0 <= k < |report.cycle| - 1 ensures HasEdge(graph, report.cycle[k], report.cycle[k + 1]) {
          assert HasEdge(graph, path[from + k], path[from + k + 1]);
        }
      }
      CountedMore(graph, cycles, closers, report, (node, i));
      OtherNodes(graph, closers, node, i, finished);
      UpwardCloses(graph, closers, path, node, i, closers + [(node, i)]);
      cycles := cycles + [report];
      closers := closers + [(node, i)];
    }
  }

  lemma UpwardInner(g: Graph, closers: seq<(string, nat)>, path: seq<string>, node: string)
    requires node in g && forall a :: 0 <= a < |path| ==> Upward(g, closers, path, a)
    requires forall c :: c in closers ==> c.0 != node
    ensures forall a :: 0 <= a < |path| + 1 ==> Upward(g, closers, path + [node], a)
  {
    forall a | 0 <= a < |path| + 1 ensures Upward(g, closers, path + [node], a) {
      if a < |path| { assert Upward(g, closers, path, a) && (path + [node])[..a + 1] == path[..a + 1]; }
    }
  }

  lemma UpwardOuter(g: Graph, closers: seq<(string, nat)>, path: seq<string>, node: string)
    requires forall a :: 0 <= a < |path| + 1 ==> Upward(g, closers, path + [node], a)
    ensures forall a :: 0 <= a < |path| ==> Upward(g, closers, path, a)
  {
    forall a | 0 <= a < |path| ensures Upward(g, closers, path, a) {
      assert Upward(g, closers, path + [node], a) && (path + [node])[..a + 1] == path[..a + 1];
    }
  }

  lemma UpwardCloses(g: Graph, closers: seq<(string, nat)>, path: seq<string>, node: string, i: nat, more: seq<(string, nat)>)
    requires |path| > 0 && Distinct(path) && path[|path| - 1] == node && more == closers + [(node, i)]
    requires forall a :: 0 <= a < |path| ==> Upward(g, closers, path, a)
    requires node in g && i < |g[node]| && g[node][i].target in path
    ensures forall a :: 0 <= a < |path| ==> Upward(g, more, path, a)
  {
    forall a | 0 <= a < |path| ensures Upward(g, more, path, a) {
      assert Upward(g, closers, path, a);
      if a == |path| - 1 { assert path[..a + 1] == path; }
    }
  }

  lemma SettledMore(g: Graph, closers: seq<(string, nat)>, finished: seq<string>, node: string)
    requires Settled(g, closers, node, finished)
    requires forall k :: 0 <= k < |finished| ==> Settled(g, closers, finished[k], finished[..k])
    ensures forall k :: 0 <= k < |finished| + 1 ==> Settled(g, closers, (finished + [node])[k], (finished + [node])[..k])
  {
    var all := finished + [node];
    forall k | 0 <= k < |all| ensures Settled(g, closers, all[k], all[..k]) {
      assert all[..k] == finished[..k];
      assert k == |finished| ==> finished[..k] == finished;
    }
  }

  lemma OtherNodes(g: Graph, closers: seq<(string, nat)>, node: string, i: nat, finished: seq<string>)
    requires node !in finished && forall k :: 0 <= k < |finished| ==> Settled(g, closers, finished[k], finished[..k])
    ensures forall k :: 0 <= k < |finished| ==> Settled(g, closers + [(node, i)], finished[k], finished[..k])
  {
    forall k | 0 <= k < |finished| ensures Settled(g, closers + [(node, i)], finished[k], finished[..k]) {
      assert Settled(g, closers, finished[k], finished[..k]);
    }
  }

  /** Every node once, and each spread of a node to one that finished no earlier, and no other, closes
      a report. */
  ghost predicate Finished(g: Graph, closers: seq<(string, nat)>, finished: seq<string>)
  {
    && Distinct(finished) && (forall n :: n in g <==> n in finished)
    && forall k :: 0 <= k < |finished| ==> Settled(g, closers, finished[k], finished[..k])
  }

  /** The search from every node, in any order the map iteration picks. */
  method DetectCycles(graph: Graph) returns (cycles: seq<Report>, ghost closers: seq<(string, nat)>, ghost finished: seq<string>)
    requires Closed(graph)
    ensures forall r :: r in cycles ==> Genuine(graph, r)
    ensures forall c :: IsCycle(graph, c) ==> Hit(cycles, c)
    ensures Counted(graph, cycles, closers) && Finished(graph, closers, finished)
  {
    var d := new Detector(graph);
    var todo := graph.Keys;
    while todo != {}
      invariant todo <= graph.Keys && graph.Keys - todo <= d.visited
      invariant d.graph == graph && fresh(d) && d.Valid([])
    {
      var node :| node in todo;
      if node !in d.visited {
        d.Dfs(node, []);
      }
      todo := todo - {node};
    }
    cycles, closers, finished := d.cycles, d.closers, d.finished;
    assert forall n :: n in graph <==> n in d.visited;
    SettledOrders(graph, cycles, closers, finished);
    forall c | IsCycle(graph, c) ensures Hit(cycles, c) {
      CycleIsHit(graph, cycles, finished, c);
    }
  }

  lemma SettledOrders(g: Graph, reports: seq<Report>, closers: seq<(string, nat)>, finished: seq<string>)
    requires Counted(g, reports, closers) && Finished(g, closers, finished)
    ensures Ordered(g, reports, finished)
  {
    forall k, e | 0 <= k < |finished| && e in g[finished[k]]
      ensures e.target in finished[..k] || ClosedBy(reports, finished[k], e.target)
    {
      assert Settled(g, closers, finished[k], finished[..k]);
      var j :| 0 <= j < |g[finished[k]]| && g[finished[k]][j] == e;
      if (finished[k], j) in closers {
        var m :| 0 <= m < |closers| && closers[m] == (finished[k], j);
        assert Closes(g, reports[m], closers[m]) && reports[m] in reports;
      }
    }
  }

  /** finished lists all nodes, and an edge that goes to no earlier node closes a report. */
  ghost predicate Ordered(g: Graph, reports: seq<Report>, finished: seq<string>)
  {
    && (forall n :: n in g ==> n in finished)
    && (forall k :: 0 <= k < |finished| ==> finished[k] in g)
    && (forall k, e :: 0 <= k < |finished| && e in g[finished[k]] ==>
          e.target in finished[..k] || ClosedBy(reports, finished[k], e.target))
  }

  function FirstIndex(p: seq<string>, n: string): (i: nat)
    requires n in p
    ensures i < |p| && p[i] == n && forall j :: 0 <= j < i ==> p[j] != n
  {
    if p[0] == n then 0 else FirstIndex(p[1..], n) + 1
  }

  /** Along an edge that closes no report the first finishing position drops. */
  lemma EdgeDrops(g: Graph, reports: seq<Report>, finished: seq<string>, a: string, b: string)
    requires Ordered(g, reports, finished) && HasEdge(g, a, b) && !ClosedBy(reports, a, b)
    ensures a in finished && b in finished && FirstIndex(finished, b) < FirstIndex(finished, a)
  {
    var k := FirstIndex(finished, a);
    var e :| e in g[a] && e.target == b;
    assert finished[k] == a && b in finished[..k];
    var j :| 0 <= j < k && finished[j] == b;
    assert FirstIndex(finished, b) <= j;
  }

  /** Every cycle of the graph runs through an edge that closes a report. */
  lemma {:induction false} CycleIsHit(g: Graph, reports: seq<Report>, finished: seq<string>, c: seq<string>)
    requires Ordered(g, reports, finished) && IsCycle(g, c)
    ensures Hit(reports, c)
  {
    if !Hit(reports, c) {
      ChainDrops(g, reports, finished, c, |c| - 1);
      EdgeDrops(g, reports, finished, c[|c| - 1], c[0]);
    }
  }

  lemma {:induction false} ChainDrops(g: Graph, reports: seq<Report>, finished: seq<string>, c: seq<string>, k: nat)
    requires Ordered(g, reports, finished) && IsCycle(g, c) && !Hit(reports, c) && k < |c|
    ensures c[0] in finished && c[k] in finished && FirstIndex(finished, c[k]) <= FirstIndex(finished, c[0])
  {
    if k > 0 {
      ChainDrops(g, reports, finished, c, k - 1);
      assert HasEdge(g, c[k - 1], c[k - 1 + 1]) && !ClosedBy(reports, c[k - 1], c[k - 1 + 1]);
      EdgeDrops(g, reports, finished, c[k - 1], c[k]);
    } else {
      assert c[0] in g;
    }
  }

  /** The detector is silent exactly on the acyclic graphs. */
  lemma SilentIffAcyclic(g: Graph, reports: seq<Report>)
    requires forall r :: r in reports ==> Genuine(g, r)
    requires forall c :: IsCycle(g, c) ==> Hit(reports, c)
    ensures reports == [] <==> !exists c :: IsCycle(g, c)
  {
    if reports != [] {
      assert reports[0] in reports && IsCycle(g, reports[0].cycle);
    }
  }
}
