/** The neighbourhood of a node: breadth first over undirected edges, to a depth and a number of nodes. */
module Subgraph {
  import opened Base
  import opened Events
  import opened Projector
  import ProjectionLaws
  import EventLog
  import Runs

  datatype Graph = Graph(nodes: map<NodeId, Node>, edges: map<EdgeId, Edge>)

  datatype Reached = Reached(node: Node, distance: nat)

  datatype Neighbourhood = Neighbourhood(nodes: map<NodeId, Reached>, edges: map<EdgeId, Edge>)

  datatype GraphError = NodeNotFound(node: NodeId)

  /** The foreign keys of the edge table hold. */
  ghost predicate Closed(g: Graph) {
    forall e :: e in g.edges ==> g.edges[e].subject in g.nodes && g.edges[e].target in g.nodes
  }

  lemma ReachableGraphsAreClosed(steps: seq<Runs.Step>)
    ensures var t := Runs.Run(EventLog.INITIAL, steps).projection.tables;
            Closed(Graph(t.nodes, t.edges))
  {
    hide Runs.Run, ProjectionLaws.LastStatus, ProjectionLaws.Challenged;
    ProjectionLaws.ReachableProjections(steps, Other(0));
  }

  predicate Touches(e: Edge, nodes: set<NodeId>) {
    e.subject in nodes || e.target in nodes
  }

  predicate Inside(e: Edge, nodes: set<NodeId>) {
    e.subject in nodes && e.target in nodes
  }

  // ---- Distance ----

  ghost predicate Adjacent(g: Graph, a: NodeId, b: NodeId) {
    exists e :: e in g.edges && Joins(g.edges[e], a, b)
  }

  predicate Joins(e: Edge, a: NodeId, b: NodeId) {
    (e.subject == a && e.target == b) || (e.subject == b && e.target == a)
  }

  ghost predicate IsWalk(g: Graph, w: seq<NodeId>) {
    |w| > 0 && forall i :: 0 <= i < |w| - 1 ==> Adjacent(g, w[i], w[i + 1])
  }

  ghost predicate Connects(g: Graph, w: seq<NodeId>, a: NodeId, b: NodeId) {
    IsWalk(g, w) && w[0] == a && w[|w| - 1] == b
  }

  /** `n` is `d` steps from `root`: some walk takes `d` steps and none takes fewer. */
  ghost predicate IsDistance(g: Graph, root: NodeId, n: NodeId, d: nat) {
    && (exists w :: Connects(g, w, root, n) && |w| == d + 1)
    && forall w :: Connects(g, w, root, n) ==> |w| >= d + 1
  }

  ghost function Neighbours(g: Graph, nodes: set<NodeId>): set<NodeId> {
    (set e | e in g.edges && g.edges[e].subject in nodes :: g.edges[e].target)
    + (set e | e in g.edges && g.edges[e].target in nodes :: g.edges[e].subject)
  }

  /** The nodes within `k` steps. */
  ghost function Ball(g: Graph, root: NodeId, k: nat): set<NodeId> {
    if k == 0 then {root} else Ball(g, root, k - 1) + Neighbours(g, Ball(g, root, k - 1))
  }

  /** The nodes within fewer than `k` steps. */
  ghost function Inner(g: Graph, root: NodeId, k: nat): set<NodeId> {
    if k == 0 then {} else Ball(g, root, k - 1)
  }

  ghost predicate OnRim(g: Graph, root: NodeId, n: NodeId, d: nat) {
    n in Ball(g, root, d) && n !in Inner(g, root, d)
  }

  lemma {:induction false} WalkStaysInBall(g: Graph, w: seq<NodeId>, k: nat)
    requires IsWalk(g, w) && |w| <= k + 1
    ensures w[|w| - 1] in Ball(g, w[0], k)
  {
    if |w| == 1 {
      if k > 0 {
        WalkStaysInBall(g, w, k - 1);
      }
    } else {
      var front := w[..|w| - 1];
      assert forall i :: 0 <= i < |front| - 1 ==> Adjacent(g, front[i], front[i + 1]) by {
        forall i | 0 <= i < |front| - 1
          ensures Adjacent(g, front[i], front[i + 1])
        {
          assert Adjacent(g, w[i], w[i + 1]);
        }
      }
      WalkStaysInBall(g, front, k - 1);
      assert Adjacent(g, w[|w| - 2], w[|w| - 2 + 1]);
    }
  }

  lemma {:induction false} BallHasWalks(g: Graph, root: NodeId, n: NodeId, k: nat) returns (w: seq<NodeId>)
    requires n in Ball(g, root, k)
    ensures Connects(g, w, root, n) && |w| <= k + 1
    decreases k
  {
    if k == 0 {
      w := [root];
    } else if n in Ball(g, root, k - 1) {
      w := BallHasWalks(g, root, n, k - 1);
    } else {
      var inner := Ball(g, root, k - 1);
      var e :| e in g.edges && ((g.edges[e].subject in inner && g.edges[e].target == n)
                                || (g.edges[e].target in inner && g.edges[e].subject == n));
      var p := if g.edges[e].subject in inner && g.edges[e].target == n then g.edges[e].subject else g.edges[e].target;
      var front := BallHasWalks(g, root, p, k - 1);
      assert Joins(g.edges[e], p, n);
      w := front + [n];
      assert Adjacent(g, w[|w| - 2], w[|w| - 2 + 1]);
    }
  }

  /** A ball is exactly what walks of so many steps reach. */
  lemma BallIsReach(g: Graph, root: NodeId, n: NodeId, k: nat)
    ensures n in Ball(g, root, k) <==> exists w :: Connects(g, w, root, n) && |w| <= k + 1
  {
    if n in Ball(g, root, k) {
      var w := BallHasWalks(g, root, n, k);
      assert Connects(g, w, root, n) && |w| <= k + 1;
    }
    if w :| Connects(g, w, root, n) && |w| <= k + 1 {
      WalkStaysInBall(g, w, k);
    }
  }

  /** The rim of the `d`-ball is exactly the nodes whose shortest walk takes `d` steps. */
  lemma RimIsDistance(g: Graph, root: NodeId, n: NodeId, d: nat)
    ensures OnRim(g, root, n, d) <==> IsDistance(g, root, n, d)
  {
    if OnRim(g, root, n, d) {
      var w := BallHasWalks(g, root, n, d);
      forall v | Connects(g, v, root, n)
        ensures |v| >= d + 1
      {
        if |v| <= d {
          WalkStaysInBall(g, v, d - 1);
        }
      }
      assert Connects(g, w, root, n) && |w| == d + 1;
    }
    if IsDistance(g, root, n, d) {
      var w :| Connects(g, w, root, n) && |w| == d + 1;
      WalkStaysInBall(g, w, d);
      if d > 0 && n in Ball(g, root, d - 1) {
        var _ := BallHasWalks(g, root, n, d - 1);
        assert false;
      }
    }
  }

  // ---- Search ----

  /** The rows found are the graph's, and their distances are right. */
  ghost predicate NodesRight(g: Graph, root: NodeId, nodes: map<NodeId, Reached>) {
    forall n :: n in nodes ==>
      n in g.nodes && nodes[n].node == g.nodes[n] && OnRim(g, root, n, nodes[n].distance)
  }

  /** The edges found are the graph's, start within `inner` and end within `found`. */
  ghost predicate EdgesRight(g: Graph, inner: set<NodeId>, found: set<NodeId>, edges: map<EdgeId, Edge>) {
    forall e :: e in edges ==>
      e in g.edges && edges[e] == g.edges[e] && Inside(edges[e], found) && Touches(edges[e], inner)
  }

  ghost predicate IsFrontier(inner: set<NodeId>, found: set<NodeId>, frontier: seq<NodeId>) {
    forall n :: n in frontier <==> n in found - inner
  }

  /** Every edge at a node of `covered` has been followed. */
  ghost predicate Followed(g: Graph, covered: set<NodeId>, edges: map<EdgeId, Edge>) {
    forall e :: e in g.edges && Touches(g.edges[e], covered) ==> e in edges
  }

  /** What holds of the nodes and edges found by hop `hop`, limit or no limit. */
  ghost predicate Sound(g: Graph, root: NodeId, hop: nat, maxNodes: nat, v: Neighbourhood) {
    && Inner(g, root, hop) <= v.nodes.Keys <= Ball(g, root, hop)
    && root in v.nodes.Keys
    && NodesRight(g, root, v.nodes)
    && EdgesRight(g, Inner(g, root, hop), v.nodes.Keys, v.edges)
    && |v.nodes.Keys| <= Max(1, maxNodes)
  }

  /** The search in the middle of hop `hop`: every edge at a node of `covered` has been followed, unless
      the node limit has been reached. */
  ghost predicate Searching(
    g: Graph, root: NodeId, hop: nat, covered: set<NodeId>, maxNodes: nat, v: Neighbourhood, next: seq<NodeId>)
  {
    && Sound(g, root, hop, maxNodes, v)
    && IsFrontier(Inner(g, root, hop), v.nodes.Keys, next)
    && (|v.nodes.Keys| < maxNodes ==> Followed(g, covered, v.edges))
  }

  ghost predicate ListsTouching(g: Graph, n: NodeId, touching: seq<EdgeId>) {
    forall e :: e in touching <==> e in g.edges && Touches(g.edges[e], {n})
  }

  method ListTouching(g: Graph, n: NodeId) returns (touching: seq<EdgeId>)
    ensures ListsTouching(g, n, touching)
  {
    touching := [];
    var rest := g.edges.Keys;
    while rest != {}
      invariant rest <= g.edges.Keys
      invariant forall e :: e in touching <==> e in g.edges && e !in rest && Touches(g.edges[e], {n})
      decreases rest
    {
      var e :| e in rest;
      if g.edges[e].subject == n || g.edges[e].target == n {
        touching := touching + [e];
      }
      rest := rest - {e};
    }
  }

  /** A first visit records the node, its distance and its place in the next frontier. */
  function Visit(g: Graph, hop: nat, n: NodeId, s: (Neighbourhood, seq<NodeId>)): (Neighbourhood, seq<NodeId>) {
    if n in s.0.nodes || n !in g.nodes then s
    else (s.0.(nodes := s.0.nodes[n := Reached(g.nodes[n], hop)]), s.1 + [n])
  }

  lemma OneMoreNode(g: Graph, root: NodeId, nodes: map<NodeId, Reached>, n: NodeId, d: nat)
    requires NodesRight(g, root, nodes) && n in g.nodes && OnRim(g, root, n, d)
    ensures NodesRight(g, root, nodes[n := Reached(g.nodes[n], d)])
  {
    hide OnRim;
  }

  lemma OneMoreFound(g: Graph, inner: set<NodeId>, found: set<NodeId>, edges: map<EdgeId, Edge>, n: NodeId)
    requires EdgesRight(g, inner, found, edges)
    ensures EdgesRight(g, inner, found + {n}, edges)
  {
  }

  lemma OneMoreOnFrontier(inner: set<NodeId>, found: set<NodeId>, frontier: seq<NodeId>, n: NodeId)
    requires IsFrontier(inner, found, frontier) && n !in inner
    ensures IsFrontier(inner, found + {n}, frontier + [n])
  {
  }

  lemma VisitKeepsSearching(
    g: Graph, root: NodeId, hop: nat, covered: set<NodeId>, maxNodes: nat, v: Neighbourhood,
    next: seq<NodeId>, n: NodeId)
    requires Searching(g, root, hop, covered, maxNodes, v, next) && |v.nodes.Keys| < maxNodes
    requires hop > 0 && n in g.nodes && n in Ball(g, root, hop)
    ensures var s := Visit(g, hop, n, (v, next));
            Searching(g, root, hop, covered, maxNodes, s.0, s.1) && n in s.0.nodes && v.nodes.Keys <= s.0.nodes.Keys
  {
    hide Ball, Inner, NodesRight, EdgesRight, IsFrontier, Followed;
    var s := Visit(g, hop, n, (v, next));
    if n !in v.nodes {
      var inner := Inner(g, root, hop);
      assert s.0.nodes.Keys == v.nodes.Keys + {n};
      assert OnRim(g, root, n, hop);
      OneMoreNode(g, root, v.nodes, n, hop);
      OneMoreFound(g, inner, v.nodes.Keys, v.edges, n);
      OneMoreOnFrontier(inner, v.nodes.Keys, next, n);
    }
  }

  /** Follow one edge of a node reached in an earlier hop, below the limit. */
  method FollowEdge(
    g: Graph, ghost root: NodeId, hop: nat, ghost covered: set<NodeId>, ghost maxNodes: nat, e: EdgeId,
    v: Neighbourhood, next: seq<NodeId>)
    returns (w: Neighbourhood, after: seq<NodeId>)
    requires Closed(g) && hop > 0 && Searching(g, root, hop, covered, maxNodes, v, next) && |v.nodes.Keys| < maxNodes
    requires e in g.edges && Touches(g.edges[e], Inner(g, root, hop))
    ensures Searching(g, root, hop, covered, maxNodes, w, after)
    ensures v.nodes.Keys <= w.nodes.Keys && w.edges == v.edges[e := g.edges[e]]
  {
    var s := Visit(g, hop, g.edges[e].subject, (v.(edges := v.edges[e := g.edges[e]]), next));
    s := Visit(g, hop, g.edges[e].target, s);
    w, after := s.0, s.1;
    FollowEdgeKeepsSearching(g, root, hop, covered, maxNodes, e, v, next);
  }

  lemma FollowEdgeKeepsSearching(
    g: Graph, root: NodeId, hop: nat, covered: set<NodeId>, maxNodes: nat, e: EdgeId, v: Neighbourhood,
    next: seq<NodeId>)
    requires Closed(g) && hop > 0 && Searching(g, root, hop, covered, maxNodes, v, next) && |v.nodes.Keys| < maxNodes
    requires e in g.edges && Touches(g.edges[e], Inner(g, root, hop))
    ensures var edges := v.edges[e := g.edges[e]];
            var s := Visit(g, hop, g.edges[e].target, Visit(g, hop, g.edges[e].subject, (v.(edges := edges), next)));
            && Searching(g, root, hop, covered, maxNodes, s.0, s.1)
            && v.nodes.Keys <= s.0.nodes.Keys && s.0.edges == edges
  {
    hide Ball, Inner, NodesRight, EdgesRight, IsFrontier, Followed;
    var a, b := g.edges[e].subject, g.edges[e].target;
    NeighboursInBall(g, root, hop, e);
    var s: (Neighbourhood, seq<NodeId>);
    if a in Inner(g, root, hop) {
      s := Visit(g, hop, b, (v, next));
      VisitKeepsSearching(g, root, hop, covered, maxNodes, v, next, b);
    } else {
      s := Visit(g, hop, a, (v, next));
      VisitKeepsSearching(g, root, hop, covered, maxNodes, v, next, a);
    }
    EdgeKeepsSearching(g, root, hop, covered, maxNodes, e, s.0, s.1);
  }

  lemma NeighboursInBall(g: Graph, root: NodeId, hop: nat, e: EdgeId)
    requires hop > 0 && e in g.edges && Touches(g.edges[e], Inner(g, root, hop))
    ensures Inside(g.edges[e], Ball(g, root, hop))
  {
  }

  lemma EdgeKeepsSearching(
    g: Graph, root: NodeId, hop: nat, covered: set<NodeId>, maxNodes: nat, e: EdgeId, v: Neighbourhood,
    next: seq<NodeId>)
    requires Searching(g, root, hop, covered, maxNodes, v, next)
    requires e in g.edges && Touches(g.edges[e], Inner(g, root, hop)) && Inside(g.edges[e], v.nodes.Keys)
    ensures Searching(g, root, hop, covered, maxNodes, v.(edges := v.edges[e := g.edges[e]]), next)
  {
    hide Ball, Inner, NodesRight, IsFrontier;
  }

  lemma AllFollowed(g: Graph, covered: set<NodeId>, n: NodeId, touching: seq<EdgeId>, edges: map<EdgeId, Edge>)
    requires Followed(g, covered, edges)
    requires ListsTouching(g, n, touching)
    requires forall j :: 0 <= j < |touching| ==> touching[j] in edges
    ensures Followed(g, covered + {n}, edges)
  {
    forall e | e in g.edges && Touches(g.edges[e], covered + {n})
      ensures e in edges
    {
      assert Touches(g.edges[e], covered) || Touches(g.edges[e], {n});
    }
  }

  lemma ListedTouches(g: Graph, root: NodeId, hop: nat, n: NodeId, touching: seq<EdgeId>, i: nat)
    requires ListsTouching(g, n, touching) && n in Inner(g, root, hop) && i < |touching|
    ensures touching[i] in g.edges && Touches(g.edges[touching[i]], Inner(g, root, hop))
  {
    hide Inner;
    assert touching[i] in touching;
  }

  lemma NodeFollowed(
    g: Graph, root: NodeId, hop: nat, covered: set<NodeId>, maxNodes: nat, n: NodeId, touching: seq<EdgeId>,
    v: Neighbourhood, next: seq<NodeId>)
    requires Searching(g, root, hop, covered, maxNodes, v, next)
    requires ListsTouching(g, n, touching)
    requires |v.nodes.Keys| < maxNodes ==> forall j :: 0 <= j < |touching| ==> touching[j] in v.edges
    ensures Searching(g, root, hop, covered + {n}, maxNodes, v, next)
  {
    hide Ball, Inner, Sound, IsFrontier, Followed;
    if |v.nodes.Keys| < maxNodes {
      AllFollowed(g, covered, n, touching, v.edges);
    }
  }

  /** Follow every edge of node `n`, stopping at the limit. */
  method FollowNode(
    g: Graph, ghost root: NodeId, hop: nat, ghost covered: set<NodeId>, maxNodes: nat, n: NodeId,
    v: Neighbourhood, next: seq<NodeId>)
    returns (w: Neighbourhood, after: seq<NodeId>)
    requires Closed(g) && hop > 0 && Searching(g, root, hop, covered, maxNodes, v, next) && n in Inner(g, root, hop)
    ensures Searching(g, root, hop, covered + {n}, maxNodes, w, after)
  {
    hide Ball, Inner, Searching, Closed, ListsTouching, Touches;
    var touching := ListTouching(g, n);
    w, after := v, next;
    for i := 0 to |touching|
      invariant Searching(g, root, hop, covered, maxNodes, w, after)
      invariant |w.nodes.Keys| < maxNodes ==> forall j :: 0 <= j < i ==> touching[j] in w.edges
    {
      if |w.nodes.Keys| >= maxNodes {
        break;
      }
      ListedTouches(g, root, hop, n, touching, i);
      w, after := FollowEdge(g, root, hop, covered, maxNodes, touching[i], w, after);
    }
    NodeFollowed(g, root, hop, covered, maxNodes, n, touching, w, after);
  }

  /** One hop: follow every node of the frontier. */
  method FollowFrontier(
    g: Graph, ghost root: NodeId, hop: nat, maxNodes: nat, frontier: seq<NodeId>, v: Neighbourhood)
    returns (w: Neighbourhood, next: seq<NodeId>)
    requires Closed(g) && hop > 0 && Searching(g, root, hop - 1, Inner(g, root, hop - 1), maxNodes, v, frontier)
    requires |v.nodes.Keys| < maxNodes
    ensures Searching(g, root, hop, Inner(g, root, hop), maxNodes, w, next)
  {
    hide Ball, Inner, Searching, Closed;
    StartHop(g, root, hop, maxNodes, frontier, v);
    w, next := v, [];
    ghost var covered := Inner(g, root, hop - 1);
    for i := 0 to |frontier|
      invariant Searching(g, root, hop, covered, maxNodes, w, next)
      invariant forall n :: n in covered <==> n in Inner(g, root, hop - 1) || n in frontier[..i]
    {
      assert frontier[i] in frontier;
      w, next := FollowNode(g, root, hop, covered, maxNodes, frontier[i], w, next);
      covered := covered + {frontier[i]};
    }
    assert frontier[..|frontier|] == frontier;
    assert covered == Inner(g, root, hop);
  }

  /** Below the limit, the frontier is the rim of the ball searched so far. */
  lemma StartHop(g: Graph, root: NodeId, hop: nat, maxNodes: nat, frontier: seq<NodeId>, v: Neighbourhood)
    requires hop > 0 && Searching(g, root, hop - 1, Inner(g, root, hop - 1), maxNodes, v, frontier)
    requires |v.nodes.Keys| < maxNodes
    ensures Searching(g, root, hop, Inner(g, root, hop - 1), maxNodes, v, [])
    ensures forall n :: n in Inner(g, root, hop) <==> n in Inner(g, root, hop - 1) || n in frontier
  {
    BelowLimitIsBall(g, root, hop - 1, maxNodes, v, frontier);
  }

  lemma ZeroBall(g: Graph, root: NodeId)
    ensures Ball(g, root, 0) == {root}
  {
  }

  /** A node on the rim has an edge into the ball inside. */
  lemma Bridge(g: Graph, root: NodeId, hop: nat, n: NodeId) returns (e: EdgeId)
    requires hop > 0 && OnRim(g, root, n, hop)
    ensures e in g.edges && Touches(g.edges[e], Inner(g, root, hop))
    ensures g.edges[e].subject == n || g.edges[e].target == n
  {
    assert n in Neighbours(g, Ball(g, root, hop - 1));
    e :| e in g.edges && Touches(g.edges[e], Ball(g, root, hop - 1))
         && (g.edges[e].subject == n || g.edges[e].target == n);
  }

  lemma BelowLimitIsBall(g: Graph, root: NodeId, hop: nat, maxNodes: nat, v: Neighbourhood, frontier: seq<NodeId>)
    requires Searching(g, root, hop, Inner(g, root, hop), maxNodes, v, frontier) && |v.nodes.Keys| < maxNodes
    ensures v.nodes.Keys == Ball(g, root, hop)
    ensures forall e :: e in v.edges <==> e in g.edges && Touches(g.edges[e], Inner(g, root, hop))
  {
    hide Ball, NodesRight, IsFrontier;
    forall n | n in Ball(g, root, hop)
      ensures n in v.nodes.Keys
    {
      if n !in Inner(g, root, hop) {
        if hop > 0 {
          var e := Bridge(g, root, hop, n);
          assert e in v.edges;
        } else {
          assert Ball(g, root, 0) == {root} by { ZeroBall(g, root); }
        }
      }
    }
  }

  /** The neighbourhood the search promises. Distances are true shortest distances, limit or no limit; nodes
      and edges are rows of the graph; every returned edge has both ends returned; a returned node has every
      nearer node with it; the limit alone decides how many of the nodes within the depth are returned. */
  ghost predicate Promised(g: Graph, root: NodeId, depth: nat, maxNodes: nat, v: Neighbourhood) {
    && root in v.nodes
    && (forall n :: n in v.nodes ==>
          n in g.nodes && v.nodes[n].node == g.nodes[n] && v.nodes[n].distance <= depth
          && IsDistance(g, root, n, v.nodes[n].distance))
    && (forall n, m, d: nat :: n in v.nodes && d < v.nodes[n].distance && IsDistance(g, root, m, d) ==> m in v.nodes)
    && (forall e :: e in v.edges ==> e in g.edges && v.edges[e] == g.edges[e] && Inside(v.edges[e], v.nodes.Keys))
    && |v.nodes.Keys| == Max(1, Min(maxNodes, |Ball(g, root, depth)|))
    && (|v.nodes.Keys| < maxNodes ==>
          && v.nodes.Keys == Ball(g, root, depth)
          && forall e :: e in v.edges <==> e in g.edges && Touches(g.edges[e], Inner(g, root, depth)))
  }

  lemma StartSearch(g: Graph, root: NodeId, maxNodes: nat, v: Neighbourhood, frontier: seq<NodeId>)
    requires root in g.nodes && v == Neighbourhood(map[root := Reached(g.nodes[root], 0)], map[]) && frontier == [root]
    ensures Searching(g, root, 0, Inner(g, root, 0), maxNodes, v, frontier)
  {
    assert v.nodes.Keys == {root};
  }

  method GetSubgraph(g: Graph, root: NodeId, depth: nat, maxNodes: nat) returns (r: Result<Neighbourhood, GraphError>)
    requires Closed(g)
    ensures r.Ok? <==> root in g.nodes
    ensures r.Ok? ==> Promised(g, root, depth, maxNodes, r.value)
    ensures r.Err? ==> r.error == NodeNotFound(root)
  {
    hide Ball, Inner, Searching, Promised, Closed;
    if root !in g.nodes {
      return Err(NodeNotFound(root));
    }
    var v, frontier := Neighbourhood(map[root := Reached(g.nodes[root], 0)], map[]), [root];
    var hop := 1;
    StartSearch(g, root, maxNodes, v, frontier);
    while hop <= depth
      invariant 1 <= hop <= depth + 1
      invariant Searching(g, root, hop - 1, Inner(g, root, hop - 1), maxNodes, v, frontier)
    {
      if |v.nodes.Keys| >= maxNodes {
        break;
      }
      v, frontier := FollowFrontier(g, root, hop, maxNodes, frontier, v);
      hop := hop + 1;
    }
    EndOfSearch(g, root, hop - 1, depth, maxNodes, v, frontier);
    r := Ok(v);
  }

  lemma {:induction false} BallsGrow(g: Graph, root: NodeId, j: nat, k: nat)
    requires j <= k
    ensures Ball(g, root, j) <= Ball(g, root, k)
  {
    if j < k {
      BallsGrow(g, root, j, k - 1);
    }
  }

  lemma RimWithin(g: Graph, root: NodeId, n: NodeId, d: nat, k: nat)
    requires OnRim(g, root, n, d)
    ensures n in Ball(g, root, k) <==> d <= k
  {
    if d <= k {
      BallsGrow(g, root, d, k);
    } else {
      BallsGrow(g, root, k, d - 1);
    }
  }

  lemma NearerNodesArePresent(
    g: Graph, root: NodeId, hop: nat, maxNodes: nat, v: Neighbourhood, n: NodeId, m: NodeId, d: nat)
    requires Sound(g, root, hop, maxNodes, v) && n in v.nodes && d < v.nodes[n].distance && OnRim(g, root, m, d)
    ensures m in v.nodes
  {
    hide Ball, EdgesRight;
    RimWithin(g, root, n, v.nodes[n].distance, hop);
    BallsGrow(g, root, d, hop - 1);
  }

  lemma EndOfSearch(
    g: Graph, root: NodeId, hop: nat, depth: nat, maxNodes: nat, v: Neighbourhood, frontier: seq<NodeId>)
    requires Searching(g, root, hop, Inner(g, root, hop), maxNodes, v, frontier)
    requires hop <= depth && (hop < depth ==> |v.nodes.Keys| >= maxNodes)
    ensures Promised(g, root, depth, maxNodes, v)
  {
    hide Ball, IsDistance;
    BallsGrow(g, root, hop, depth);
    forall n | n in v.nodes
      ensures v.nodes[n].distance <= depth && IsDistance(g, root, n, v.nodes[n].distance)
    {
      RimWithin(g, root, n, v.nodes[n].distance, hop);
      RimIsDistance(g, root, n, v.nodes[n].distance);
    }
    forall n, m, d: nat | n in v.nodes && d < v.nodes[n].distance && IsDistance(g, root, m, d)
      ensures m in v.nodes
    {
      RimIsDistance(g, root, m, d);
      NearerNodesArePresent(g, root, hop, maxNodes, v, n, m, d);
    }
    SubsetSize(v.nodes.Keys, Ball(g, root, depth));
    SubsetSize({root}, v.nodes.Keys);
    if |v.nodes.Keys| < maxNodes {
      BelowLimitIsBall(g, root, hop, maxNodes, v, frontier);
    }
  }
}
