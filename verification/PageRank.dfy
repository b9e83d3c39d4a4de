/** Power-iteration PageRank over an edge list, in exact real arithmetic.

    The reference formulation gives a node's next score as a base term plus one share per incoming
    edge of the list; the method computes it source by source, in any order of the sources. */
module PageRank {
  import opened Events

  type Edges = seq<(NodeId, NodeId)>
  type Scores = map<NodeId, real>

  const DAMPING: real := 0.85
  const MAX_ITERATIONS: nat := 50
  const CONVERGENCE_EPSILON: real := 0.000001

  // ---- Sums ----

  function AbsReal(x: real): real {
    if x < 0.0 then -x else x
  }

  function Sum(nodes: seq<NodeId>, f: NodeId -> real): real {
    if nodes == [] then 0.0 else f(nodes[0]) + Sum(nodes[1..], f)
  }

  predicate Distinct(nodes: seq<NodeId>) {
    forall i, j :: 0 <= i < j < |nodes| ==> nodes[i] != nodes[j]
  }

  lemma {:induction false} SumMonotone(nodes: seq<NodeId>, f: NodeId -> real, g: NodeId -> real)
    requires forall v :: v in nodes ==> f(v) <= g(v)
    ensures Sum(nodes, f) <= Sum(nodes, g)
  {
    if nodes != [] {
      SumMonotone(nodes[1..], f, g);
    }
  }

  lemma SumEqual(nodes: seq<NodeId>, f: NodeId -> real, g: NodeId -> real)
    requires forall v :: v in nodes ==> f(v) == g(v)
    ensures Sum(nodes, f) == Sum(nodes, g)
  {
    SumMonotone(nodes, f, g);
    SumMonotone(nodes, g, f);
  }

  /** Sums are linear. */
  lemma {:induction false} SumLinear(
    nodes: seq<NodeId>, f: NodeId -> real, g: NodeId -> real, h: NodeId -> real, c: real)
    requires forall v :: v in nodes ==> h(v) == f(v) + c * g(v)
    ensures Sum(nodes, h) == Sum(nodes, f) + c * Sum(nodes, g)
  {
    if nodes != [] {
      SumLinear(nodes[1..], f, g, h, c);
    }
  }

  lemma {:induction false} SumConstant(nodes: seq<NodeId>, f: NodeId -> real, c: real)
    requires forall v :: v in nodes ==> f(v) == c
    ensures Sum(nodes, f) == |nodes| as real * c
  {
    if nodes != [] {
      SumConstant(nodes[1..], f, c);
    }
  }

  /** Raising one node's value by at most `x` raises the sum by at most `x`; by exactly `x` if exact. */
  lemma {:induction false} SumAtOne(nodes: seq<NodeId>, f: NodeId -> real, g: NodeId -> real, t: NodeId, x: real)
    requires Distinct(nodes) && x >= 0.0
    requires forall v :: v in nodes ==> if v == t then g(v) <= f(v) + x else g(v) <= f(v)
    ensures Sum(nodes, g) <= Sum(nodes, f) + x
    ensures t !in nodes ==> Sum(nodes, g) <= Sum(nodes, f)
  {
    if nodes != [] {
      SumAtOne(nodes[1..], f, g, t, x);
    }
  }

  lemma {:induction false} SumAtExactlyOne(nodes: seq<NodeId>, f: NodeId -> real, g: NodeId -> real, t: NodeId, x: real)
    requires Distinct(nodes)
    requires forall v :: v in nodes ==> g(v) == if v == t then f(v) + x else f(v)
    ensures Sum(nodes, g) == Sum(nodes, f) + if t in nodes then x else 0.0
  {
    if nodes != [] {
      SumAtExactlyOne(nodes[1..], f, g, t, x);
    }
  }

  // ---- Real arithmetic ----

  function Times(k: nat, x: real): real {
    k as real * x
  }

  lemma OneMore(k: nat, x: real)
    ensures Times(k + 1, x) == Times(k, x) + x && Times(0, x) == 0.0
  {
  }

  lemma DivideBack(a: real, k: real)
    requires k > 0.0
    ensures k * (a / k) == a
  {
  }

  lemma AbsScales(k: real, z: real)
    requires k >= 0.0
    ensures k * AbsReal(z) == AbsReal(k * z)
  {
    if z < 0.0 {
      assert k * -z == -(k * z);
      assert k * z <= 0.0;
    } else {
      assert k * z >= 0.0;
    }
  }

  /** Dividing two numbers by the same count divides their distance. */
  lemma DividedGap(a: real, b: real, k: real)
    requires k > 0.0
    ensures k * AbsReal(a / k - b / k) == AbsReal(a - b)
  {
    DivideBack(a, k);
    DivideBack(b, k);
    ScaledGap(a, b, k, a / k, b / k);
  }

  lemma ScaledGap(a: real, b: real, k: real, x: real, y: real)
    requires k > 0.0 && k * x == a && k * y == b
    ensures k * AbsReal(x - y) == AbsReal(a - b)
  {
    AbsScales(k, x - y);
    SameAbs(k * (x - y), a - b);
  }

  lemma SameAbs(u: real, v: real)
    requires u == v
    ensures AbsReal(u) == AbsReal(v)
  {
  }

  lemma DampedGap(p: real, q: real, k: real)
    requires k > 0.0
    ensures k * AbsReal(DAMPING * p / k - DAMPING * q / k) == DAMPING * AbsReal(p - q)
  {
    DividedGap(DAMPING * p, DAMPING * q, k);
    AbsScales(DAMPING, p - q);
  }

  // ---- The reference step ----

  function OutDegree(edges: Edges, v: NodeId): nat {
    if edges == [] then 0
    else OutDegree(edges[..|edges| - 1], v) + if edges[|edges| - 1].0 == v then 1 else 0
  }

  /** One weight per edge that ends in `v`. */
  function Incoming(edges: Edges, w: NodeId -> real, v: NodeId): real {
    if edges == [] then 0.0
    else
      var (s, o) := edges[|edges| - 1];
      Incoming(edges[..|edges| - 1], w, v) + if o == v then w(s) else 0.0
  }

  function At(scores: Scores, v: NodeId): real {
    if v in scores then scores[v] else 0.0
  }

  function Split(score: real, degree: nat): real {
    if degree == 0 then 0.0 else DAMPING * score / degree as real
  }

  /** What each outgoing edge of `v` passes on. */
  function Share(edges: Edges, scores: Scores, v: NodeId): real {
    Split(At(scores, v), OutDegree(edges, v))
  }

  function DanglingScore(edges: Edges, scores: Scores, v: NodeId): real {
    if OutDegree(edges, v) == 0 then At(scores, v) else 0.0
  }

  function Base(edges: Edges, nodes: seq<NodeId>, scores: Scores): real
    requires nodes != []
  {
    var n := |nodes| as real;
    (1.0 - DAMPING) / n + DAMPING * Sum(nodes, v => DanglingScore(edges, scores, v)) / n
  }

  function Step(edges: Edges, nodes: seq<NodeId>, scores: Scores): Scores
    requires nodes != []
  {
    map v | v in nodes :: Base(edges, nodes, scores) + Incoming(edges, s => Share(edges, scores, s), v)
  }

  function Uniform(nodes: seq<NodeId>): Scores {
    map v | v in nodes :: 1.0 / |nodes| as real
  }

  function Iterate(edges: Edges, nodes: seq<NodeId>, k: nat): Scores
    requires nodes != []
  {
    if k == 0 then Uniform(nodes) else Step(edges, nodes, Iterate(edges, nodes, k - 1))
  }

  function Total(nodes: seq<NodeId>, scores: Scores): real {
    Sum(nodes, v => At(scores, v))
  }

  function Gap(x: Scores, y: Scores, v: NodeId): real {
    AbsReal(At(x, v) - At(y, v))
  }

  function Distance(nodes: seq<NodeId>, x: Scores, y: Scores): real {
    Sum(nodes, v => Gap(x, y, v))
  }

  // ---- Conservation ----

  function EdgeSum(edges: Edges, w: NodeId -> real): real {
    if edges == [] then 0.0 else EdgeSum(edges[..|edges| - 1], w) + w(edges[|edges| - 1].0)
  }

  ghost predicate Covers(edges: Edges, nodes: seq<NodeId>) {
    Distinct(nodes) && forall i :: 0 <= i < |edges| ==> edges[i].0 in nodes && edges[i].1 in nodes
  }

  /** What all nodes receive is what all edges carry. */
  lemma {:induction false} IncomingTotal(edges: Edges, nodes: seq<NodeId>, w: NodeId -> real)
    requires Covers(edges, nodes)
    ensures Sum(nodes, v => Incoming(edges, w, v)) == EdgeSum(edges, w)
  {
    if edges == [] {
      SumConstant(nodes, v => Incoming(edges, w, v), 0.0);
    } else {
      var earlier := edges[..|edges| - 1];
      var (s, o) := edges[|edges| - 1];
      IncomingTotal(earlier, nodes, w);
      SumAtExactlyOne(nodes, v => Incoming(earlier, w, v), v => Incoming(edges, w, v), o, w(s));
    }
  }

  /** Differences in what nodes receive are bounded by differences in what edges carry. */
  lemma {:induction false} IncomingDifference(edges: Edges, nodes: seq<NodeId>, w: NodeId -> real, u: NodeId -> real)
    requires Covers(edges, nodes)
    ensures Sum(nodes, v => AbsReal(Incoming(edges, w, v) - Incoming(edges, u, v))) <=
            EdgeSum(edges, s => AbsReal(w(s) - u(s)))
  {
    if edges == [] {
      SumConstant(nodes, v => AbsReal(Incoming(edges, w, v) - Incoming(edges, u, v)), 0.0);
    } else {
      var earlier := edges[..|edges| - 1];
      var (s, o) := edges[|edges| - 1];
      hide Sum;
      IncomingDifference(earlier, nodes, w, u);
      SumAtOne(nodes, v => AbsReal(Incoming(earlier, w, v) - Incoming(earlier, u, v)),
               v => AbsReal(Incoming(edges, w, v) - Incoming(edges, u, v)), o, AbsReal(w(s) - u(s)));
    }
  }

  /** Edge by edge or node by node: each node's weight counts once per outgoing edge. */
  lemma {:induction false} EdgeSumByNode(edges: Edges, nodes: seq<NodeId>, w: NodeId -> real)
    requires Covers(edges, nodes)
    ensures EdgeSum(edges, w) == Sum(nodes, v => Times(OutDegree(edges, v), w(v)))
  {
    hide Times;
    if edges == [] {
      forall v
        ensures Times(OutDegree(edges, v), w(v)) == 0.0
      {
        OneMore(0, w(v));
      }
      SumConstant(nodes, v => Times(OutDegree(edges, v), w(v)), 0.0);
    } else {
      var earlier := edges[..|edges| - 1];
      var s := edges[|edges| - 1].0;
      EdgeSumByNode(earlier, nodes, w);
      var f, g := v => Times(OutDegree(earlier, v), w(v)), v => Times(OutDegree(edges, v), w(v));
      forall v
        ensures g(v) == if v == s then f(v) + w(s) else f(v)
      {
        OneMore(OutDegree(earlier, v), w(v));
      }
      SumAtExactlyOne(nodes, f, g, s, w(s));
    }
  }

  lemma ShareTimesDegree(edges: Edges, scores: Scores, v: NodeId)
    ensures Times(OutDegree(edges, v), Share(edges, scores, v)) ==
            DAMPING * At(scores, v) - DAMPING * DanglingScore(edges, scores, v)
  {
    if OutDegree(edges, v) != 0 {
      DivideBack(DAMPING * At(scores, v), OutDegree(edges, v) as real);
    }
  }

  function Scaled(c: real, f: NodeId -> real): NodeId -> real {
    v => c * f(v)
  }

  lemma SumScaled(nodes: seq<NodeId>, c: real, f: NodeId -> real)
    ensures Sum(nodes, Scaled(c, f)) == c * Sum(nodes, f)
  {
    var zero := (v: NodeId) => 0.0;
    SumConstant(nodes, zero, 0.0);
    SumLinear(nodes, zero, f, Scaled(c, f), c);
  }

  /** Everything but the dangling score is passed on, damped. */
  lemma CarriedTotal(edges: Edges, nodes: seq<NodeId>, scores: Scores)
    requires Covers(edges, nodes)
    ensures EdgeSum(edges, s => Share(edges, scores, s)) ==
            DAMPING * Total(nodes, scores) - DAMPING * Sum(nodes, v => DanglingScore(edges, scores, v))
  {
    hide Share, DanglingScore, OutDegree, At, EdgeSum, Sum;
    var w := s => Share(edges, scores, s);
    var weight := v => Times(OutDegree(edges, v), w(v));
    var at := v => At(scores, v);
    var dangling := v => DanglingScore(edges, scores, v);
    EdgeSumByNode(edges, nodes, w);
    forall v
      ensures weight(v) == Scaled(DAMPING, at)(v) - DAMPING * dangling(v)
    {
      ShareTimesDegree(edges, scores, v);
    }
    SumLinear(nodes, Scaled(DAMPING, at), dangling, weight, -DAMPING);
    SumScaled(nodes, DAMPING, at);
  }

  lemma BaseTimesCount(edges: Edges, nodes: seq<NodeId>, scores: Scores)
    requires nodes != []
    ensures |nodes| as real * Base(edges, nodes, scores) ==
            (1.0 - DAMPING) + DAMPING * Sum(nodes, v => DanglingScore(edges, scores, v))
  {
    var n := |nodes| as real;
    DivideBack(1.0 - DAMPING, n);
    DivideBack(DAMPING * Sum(nodes, v => DanglingScore(edges, scores, v)), n);
  }

  /** A step keeps the total at one, dangling nodes and repeated edges included. */
  lemma StepKeepsTotal(edges: Edges, nodes: seq<NodeId>, scores: Scores)
    requires Covers(edges, nodes) && nodes != [] && Total(nodes, scores) == 1.0
    ensures Total(nodes, Step(edges, nodes, scores)) == 1.0
  {
    hide Base, Incoming, Share, Sum, EdgeSum, DanglingScore, OutDegree;
    var next := Step(edges, nodes, scores);
    var w := s => Share(edges, scores, s);
    var base := Base(edges, nodes, scores);
    SumLinear(nodes, v => base, v => Incoming(edges, w, v), v => At(next, v), 1.0);
    SumConstant(nodes, v => base, base);
    IncomingTotal(edges, nodes, w);
    CarriedTotal(edges, nodes, scores);
    BaseTimesCount(edges, nodes, scores);
  }

  // ---- Bounds ----

  ghost predicate NonNegative(scores: Scores) {
    forall v :: v in scores ==> scores[v] >= 0.0
  }

  lemma {:induction false} SumNonNegative(nodes: seq<NodeId>, f: NodeId -> real)
    requires forall v :: v in nodes ==> f(v) >= 0.0
    ensures Sum(nodes, f) >= 0.0
  {
    if nodes != [] {
      SumNonNegative(nodes[1..], f);
    }
  }

  lemma {:induction false} IncomingNonNegative(edges: Edges, w: NodeId -> real, v: NodeId)
    requires forall s :: w(s) >= 0.0
    ensures Incoming(edges, w, v) >= 0.0
  {
    if edges != [] {
      assert w(edges[|edges| - 1].0) >= 0.0;
      IncomingNonNegative(edges[..|edges| - 1], w, v);
    }
  }

  lemma ShareNonNegative(edges: Edges, scores: Scores, v: NodeId)
    requires NonNegative(scores)
    ensures Share(edges, scores, v) >= 0.0
  {
    if OutDegree(edges, v) != 0 {
      var k := OutDegree(edges, v) as real;
      var a := DAMPING * At(scores, v);
      assert a / k * k == a;
    }
  }

  lemma BaseBound(edges: Edges, nodes: seq<NodeId>, scores: Scores)
    requires nodes != [] && NonNegative(scores)
    ensures Base(edges, nodes, scores) >= (1.0 - DAMPING) / |nodes| as real
  {
    var n := |nodes| as real;
    var dangling := v => DanglingScore(edges, scores, v);
    SumNonNegative(nodes, dangling);
    var b := DAMPING * Sum(nodes, dangling) / n;
    assert b * n == DAMPING * Sum(nodes, dangling);
    assert b >= 0.0;
  }

  /** After a step every node has at least its even part of the undamped score. */
  lemma StepBound(edges: Edges, nodes: seq<NodeId>, scores: Scores, v: NodeId)
    requires nodes != [] && NonNegative(scores) && v in nodes
    ensures Step(edges, nodes, scores)[v] >= (1.0 - DAMPING) / |nodes| as real
  {
    hide Base, Share;
    BaseBound(edges, nodes, scores);
    forall s
      ensures Share(edges, scores, s) >= 0.0
    {
      ShareNonNegative(edges, scores, s);
    }
    IncomingNonNegative(edges, s => Share(edges, scores, s), v);
  }

  // ---- Contraction ----

  lemma {:induction false} SumTriangle(nodes: seq<NodeId>, f: NodeId -> real, g: NodeId -> real, h: NodeId -> real)
    requires forall v :: v in nodes ==> h(v) == AbsReal(f(v) - g(v))
    ensures AbsReal(Sum(nodes, f) - Sum(nodes, g)) <= Sum(nodes, h)
  {
    if nodes != [] {
      SumTriangle(nodes[1..], f, g, h);
    }
  }

  function RestingGap(edges: Edges, x: Scores, y: Scores, v: NodeId): real {
    if OutDegree(edges, v) == 0 then Gap(x, y, v) else 0.0
  }

  function ShareGap(edges: Edges, x: Scores, y: Scores, v: NodeId): real {
    AbsReal(Share(edges, x, v) - Share(edges, y, v))
  }

  lemma SplitGap(p: real, q: real, k: nat)
    ensures Times(k, AbsReal(Split(p, k) - Split(q, k))) ==
            DAMPING * AbsReal(p - q) - DAMPING * if k == 0 then AbsReal(p - q) else 0.0
  {
    if k > 0 {
      DampedGap(p, q, k as real);
    }
  }

  lemma ShareGapTimesDegree(edges: Edges, x: Scores, y: Scores, v: NodeId)
    ensures Times(OutDegree(edges, v), ShareGap(edges, x, y, v)) ==
            DAMPING * Gap(x, y, v) - DAMPING * RestingGap(edges, x, y, v)
  {
    hide OutDegree, At, AbsReal, Split;
    SplitGap(At(x, v), At(y, v), OutDegree(edges, v));
  }

  /** The difference that edges carry is the damped difference of the nodes that have any. */
  lemma CarriedGap(edges: Edges, nodes: seq<NodeId>, x: Scores, y: Scores)
    requires Covers(edges, nodes)
    ensures EdgeSum(edges, s => ShareGap(edges, x, y, s)) ==
            DAMPING * Sum(nodes, v => Gap(x, y, v)) - DAMPING * Sum(nodes, v => RestingGap(edges, x, y, v))
  {
    hide ShareGap, Gap, RestingGap, OutDegree, EdgeSum, Sum;
    var w := s => ShareGap(edges, x, y, s);
    var weight := v => Times(OutDegree(edges, v), w(v));
    var gap := v => Gap(x, y, v);
    var resting := v => RestingGap(edges, x, y, v);
    EdgeSumByNode(edges, nodes, w);
    forall v
      ensures weight(v) == Scaled(DAMPING, gap)(v) - DAMPING * resting(v)
    {
      ShareGapTimesDegree(edges, x, y, v);
    }
    SumLinear(nodes, Scaled(DAMPING, gap), resting, weight, -DAMPING);
    SumScaled(nodes, DAMPING, gap);
  }

  /** Equal shares of two amounts, compared. */
  lemma SharedGap(n: real, c: real, a: real, b: real, p: real, q: real, bound: real)
    requires n > 0.0 && n * a == c + DAMPING * p && n * b == c + DAMPING * q && AbsReal(p - q) <= bound
    ensures n * AbsReal(a - b) <= DAMPING * bound
  {
    AbsScales(n, a - b);
    assert n * (a - b) == n * a - n * b;
    AbsScales(DAMPING, p - q);
  }

  lemma BaseGap(edges: Edges, nodes: seq<NodeId>, x: Scores, y: Scores)
    requires nodes != []
    ensures |nodes| as real * AbsReal(Base(edges, nodes, x) - Base(edges, nodes, y)) <=
            DAMPING * Sum(nodes, v => RestingGap(edges, x, y, v))
  {
    hide Base, Sum;
    var f, g := v => DanglingScore(edges, x, v), v => DanglingScore(edges, y, v);
    SumTriangle(nodes, f, g, v => RestingGap(edges, x, y, v));
    BaseTimesCount(edges, nodes, x);
    BaseTimesCount(edges, nodes, y);
    SharedGap(|nodes| as real, 1.0 - DAMPING, Base(edges, nodes, x), Base(edges, nodes, y),
              Sum(nodes, f), Sum(nodes, g), Sum(nodes, v => RestingGap(edges, x, y, v)));
  }

  lemma Triangle(a: real, b: real, c: real, d: real)
    ensures AbsReal((a + c) - (b + d)) <= AbsReal(a - b) + AbsReal(c - d)
  {
  }

  /** A next score moves by no more than the base does plus what the node receives differently. */
  lemma NodeGap(edges: Edges, nodes: seq<NodeId>, x: Scores, y: Scores, v: NodeId)
    requires nodes != [] && v in nodes
    ensures Gap(Step(edges, nodes, x), Step(edges, nodes, y), v) <=
            AbsReal(Base(edges, nodes, x) - Base(edges, nodes, y))
            + AbsReal(Incoming(edges, s => Share(edges, x, s), v) - Incoming(edges, s => Share(edges, y, s), v))
  {
    hide Base, Incoming, Share;
    Triangle(Base(edges, nodes, x), Base(edges, nodes, y),
             Incoming(edges, s => Share(edges, x, s), v), Incoming(edges, s => Share(edges, y, s), v));
  }

  lemma StepGap(edges: Edges, nodes: seq<NodeId>, x: Scores, y: Scores)
    requires Covers(edges, nodes) && nodes != []
    ensures Sum(nodes, v => Gap(Step(edges, nodes, x), Step(edges, nodes, y), v)) <=
            |nodes| as real * AbsReal(Base(edges, nodes, x) - Base(edges, nodes, y))
            + EdgeSum(edges, s => ShareGap(edges, x, y, s))
  {
    hide Base, Incoming, Sum, EdgeSum, Share, AbsReal, Step, Gap;
    var wx, wy := s => Share(edges, x, s), s => Share(edges, y, s);
    var c := AbsReal(Base(edges, nodes, x) - Base(edges, nodes, y));
    var received := v => AbsReal(Incoming(edges, wx, v) - Incoming(edges, wy, v));
    var bound := v => c + 1.0 * received(v);
    forall v | v in nodes
      ensures Gap(Step(edges, nodes, x), Step(edges, nodes, y), v) <= bound(v)
    {
      NodeGap(edges, nodes, x, y, v);
    }
    SumMonotone(nodes, v => Gap(Step(edges, nodes, x), Step(edges, nodes, y), v), bound);
    SumLinear(nodes, v => c, received, bound, 1.0);
    SumConstant(nodes, v => c, c);
    IncomingDifference(edges, nodes, wx, wy);
    EdgeSumEqual(edges, s => AbsReal(wx(s) - wy(s)), s => ShareGap(edges, x, y, s));
  }

  /** A step brings any two score maps closer by at least the damping factor. */
  lemma StepContracts(edges: Edges, nodes: seq<NodeId>, x: Scores, y: Scores)
    requires Covers(edges, nodes) && nodes != []
    ensures Distance(nodes, Step(edges, nodes, x), Step(edges, nodes, y)) <= DAMPING * Distance(nodes, x, y)
  {
    hide Base, Sum, EdgeSum, RestingGap, ShareGap, AbsReal, Step, At;
    StepGap(edges, nodes, x, y);
    CarriedGap(edges, nodes, x, y);
    BaseGap(edges, nodes, x, y);
  }

  lemma {:induction false} EdgeSumEqual(edges: Edges, f: NodeId -> real, g: NodeId -> real)
    requires forall v :: f(v) == g(v)
    ensures EdgeSum(edges, f) == EdgeSum(edges, g)
  {
    if edges != [] {
      EdgeSumEqual(edges[..|edges| - 1], f, g);
    }
  }

  // ---- Whole runs ----

  ghost predicate Balanced(nodes: seq<NodeId>, x: Scores)
    requires nodes != []
  {
    && Total(nodes, x) == 1.0
    && x.Keys == (set v | v in nodes)
    && forall v :: v in nodes ==> x[v] >= (1.0 - DAMPING) / |nodes| as real
  }

  lemma UndampedPartIsPositive(nodes: seq<NodeId>)
    requires nodes != []
    ensures 0.0 < (1.0 - DAMPING) / |nodes| as real <= 1.0 / |nodes| as real
  {
    var n := |nodes| as real;
    DivideBack(1.0 - DAMPING, n);
    DivideBack(1.0, n);
    var a, b := (1.0 - DAMPING) / n, 1.0 / n;
    assert n * (b - a) == DAMPING;
  }

  lemma UniformIsBalanced(nodes: seq<NodeId>)
    requires nodes != []
    ensures Balanced(nodes, Uniform(nodes))
  {
    hide Sum;
    var x := Uniform(nodes);
    UndampedPartIsPositive(nodes);
    DivideBack(1.0, |nodes| as real);
    SumConstant(nodes, v => At(x, v), 1.0 / |nodes| as real);
  }

  /** Through every iteration the total is one and every score keeps the lower bound. */
  lemma {:induction false} IterateIsBalanced(edges: Edges, nodes: seq<NodeId>, k: nat)
    requires Covers(edges, nodes) && nodes != []
    ensures Balanced(nodes, Iterate(edges, nodes, k))
  {
    hide Base, Incoming, Sum, At;
    if k == 0 {
      UniformIsBalanced(nodes);
    } else {
      var x := Iterate(edges, nodes, k - 1);
      IterateIsBalanced(edges, nodes, k - 1);
      UndampedPartIsPositive(nodes);
      StepKeepsTotal(edges, nodes, x);
      forall v | v in nodes
        ensures Step(edges, nodes, x)[v] >= (1.0 - DAMPING) / |nodes| as real
      {
        StepBound(edges, nodes, x, v);
      }
    }
  }

  /** Successive iterates approach each other at least geometrically. */
  lemma IteratesApproach(edges: Edges, nodes: seq<NodeId>, k: nat)
    requires Covers(edges, nodes) && nodes != []
    ensures Distance(nodes, Iterate(edges, nodes, k + 2), Iterate(edges, nodes, k + 1)) <=
            DAMPING * Distance(nodes, Iterate(edges, nodes, k + 1), Iterate(edges, nodes, k))
  {
    hide Step, Distance;
    StepContracts(edges, nodes, Iterate(edges, nodes, k + 1), Iterate(edges, nodes, k));
  }

  lemma DistanceTriangle(nodes: seq<NodeId>, x: Scores, y: Scores, z: Scores)
    ensures Distance(nodes, x, z) <= Distance(nodes, x, y) + Distance(nodes, y, z)
  {
    hide Sum;
    var f, g := v => Gap(x, y, v), v => Gap(y, z, v);
    var both := v => f(v) + 1.0 * g(v);
    SumMonotone(nodes, v => Gap(x, z, v), both);
    SumLinear(nodes, f, g, both, 1.0);
  }

  /** The last movement bounds the distance to any fixed point of the step. */
  lemma MovementBoundsError(edges: Edges, nodes: seq<NodeId>, x: Scores, fixed: Scores)
    requires Covers(edges, nodes) && nodes != []
    requires Distance(nodes, Step(edges, nodes, fixed), fixed) == 0.0
    ensures (1.0 - DAMPING) * Distance(nodes, Step(edges, nodes, x), fixed) <=
            DAMPING * Distance(nodes, x, Step(edges, nodes, x))
  {
    hide Step, Distance;
    var x' := Step(edges, nodes, x);
    StepContracts(edges, nodes, x, fixed);
    DistanceTriangle(nodes, x', Step(edges, nodes, fixed), fixed);
    DistanceTriangle(nodes, x, x', fixed);
  }

  lemma {:induction false} GapBelowSum(nodes: seq<NodeId>, f: NodeId -> real, v: NodeId)
    requires v in nodes && forall u :: u in nodes ==> f(u) >= 0.0
    ensures f(v) <= Sum(nodes, f)
  {
    SumNonNegative(nodes[1..], f);
    if v != nodes[0] {
      GapBelowSum(nodes[1..], f, v);
    }
  }

  /** The step has at most one fixed point. */
  lemma FixedPointIsUnique(edges: Edges, nodes: seq<NodeId>, x: Scores, y: Scores, v: NodeId)
    requires Covers(edges, nodes) && nodes != [] && v in nodes
    requires Distance(nodes, Step(edges, nodes, x), x) == 0.0 && Distance(nodes, Step(edges, nodes, y), y) == 0.0
    ensures At(x, v) == At(y, v)
  {
    hide Step, Sum;
    MovementBoundsError(edges, nodes, x, y);
    DistanceSymmetric(nodes, Step(edges, nodes, x), x);
    DistanceTriangle(nodes, x, Step(edges, nodes, x), y);
    GapBelowSum(nodes, u => Gap(x, y, u), v);
  }

  lemma DistanceSymmetric(nodes: seq<NodeId>, x: Scores, y: Scores)
    ensures Distance(nodes, x, y) == Distance(nodes, y, x)
  {
    hide Sum;
    SumEqual(nodes, v => Gap(x, y, v), v => Gap(y, x, v));
  }

  // ---- How far from where it is heading ----

  /** However long the iteration went on, it would move by no more than the next movement allows. */
  lemma {:induction false} LaterIterates(edges: Edges, nodes: seq<NodeId>, k: nat, m: nat)
    requires Covers(edges, nodes) && nodes != []
    ensures (1.0 - DAMPING) * Distance(nodes, Iterate(edges, nodes, k + m), Iterate(edges, nodes, k)) <=
            Distance(nodes, Iterate(edges, nodes, k + 1), Iterate(edges, nodes, k))
  {
    hide Step, Distance;
    var x, y := Iterate(edges, nodes, k), Iterate(edges, nodes, k + 1);
    if m == 0 {
      DistanceToItself(nodes, x);
      DistanceNonNegative(nodes, y, x);
    } else {
      LaterIterates(edges, nodes, k, m - 1);
      StepContracts(edges, nodes, Iterate(edges, nodes, k + (m - 1)), x);
      DistanceTriangle(nodes, Iterate(edges, nodes, k + m), y, x);
    }
  }

  lemma DistanceToItself(nodes: seq<NodeId>, x: Scores)
    ensures Distance(nodes, x, x) == 0.0
  {
    SumConstant(nodes, v => Gap(x, x, v), 0.0);
  }

  lemma DistanceNonNegative(nodes: seq<NodeId>, x: Scores, y: Scores)
    ensures Distance(nodes, x, y) >= 0.0
  {
    SumNonNegative(nodes, v => Gap(x, y, v));
  }

  function Power(k: nat): real {
    if k == 0 then 1.0 else DAMPING * Power(k - 1)
  }

  lemma {:induction false} PowerAdds(j: nat, k: nat)
    ensures Power(j + k) == Power(j) * Power(k)
  {
    if j > 0 {
      PowerAdds(j - 1, k);
    }
  }

  lemma {:induction false} MovementsShrink(edges: Edges, nodes: seq<NodeId>, k: nat)
    requires Covers(edges, nodes) && nodes != []
    ensures Distance(nodes, Iterate(edges, nodes, k + 1), Iterate(edges, nodes, k)) <=
            Power(k) * Distance(nodes, Iterate(edges, nodes, 1), Iterate(edges, nodes, 0))
  {
    hide Distance, Iterate;
    if k > 0 {
      MovementsShrink(edges, nodes, k - 1);
      IteratesApproach(edges, nodes, k - 1);
    }
  }

  /** The iterates form a geometric Cauchy sequence. */
  lemma IteratesConverge(edges: Edges, nodes: seq<NodeId>, k: nat, m: nat)
    requires Covers(edges, nodes) && nodes != []
    ensures (1.0 - DAMPING) * Distance(nodes, Iterate(edges, nodes, k + m), Iterate(edges, nodes, k)) <=
            Power(k) * Distance(nodes, Iterate(edges, nodes, 1), Iterate(edges, nodes, 0))
  {
    hide Distance, Iterate, Power;
    LaterIterates(edges, nodes, k, m);
    MovementsShrink(edges, nodes, k);
  }

  lemma BalancedDistance(nodes: seq<NodeId>, x: Scores, y: Scores)
    requires nodes != [] && Balanced(nodes, x) && Balanced(nodes, y)
    ensures Distance(nodes, x, y) <= 2.0
  {
    hide Sum;
    UndampedPartIsPositive(nodes);
    var f, g := v => At(x, v), v => At(y, v);
    var both := v => f(v) + 1.0 * g(v);
    SumMonotone(nodes, v => Gap(x, y, v), both);
    SumLinear(nodes, f, g, both, 1.0);
  }

  lemma ProductBound(a: real, b: real, upperA: real, upperB: real)
    requires 0.0 <= a <= upperA && 0.0 <= b <= upperB
    ensures 0.0 <= a * b <= upperA * upperB
  {
    assert a * b <= upperA * b <= upperA * upperB;
  }

  lemma PowerBound(j: nat, k: nat, upperJ: real, upperK: real)
    requires 0.0 <= Power(j) <= upperJ && 0.0 <= Power(k) <= upperK
    ensures 0.0 <= Power(j + k) <= upperJ * upperK
  {
    hide Power;
    PowerAdds(j, k);
    ProductBound(Power(j), Power(k), upperJ, upperK);
  }

  lemma SecondPower()
    ensures Power(2) == 0.7225
  {
  }

  lemma PowerAtCap()
    ensures 0.0 <= Power(MAX_ITERATIONS) <= 0.0003
  {
    hide Power;
    SecondPower();
    PowerBound(2, 2, 0.7225, 0.7225);
    PowerBound(4, 4, 0.5221, 0.5221);
    PowerBound(8, 8, 0.2726, 0.2726);
    PowerBound(16, 16, 0.07432, 0.07432);
    PowerBound(32, 16, 0.005524, 0.07432);
    PowerBound(48, 2, 0.00041055, 0.7225);
  }

  /** No later iterate is further than `bound` from iterate `k`. */
  ghost predicate Settled(edges: Edges, nodes: seq<NodeId>, k: nat, bound: real)
    requires nodes != []
  {
    forall j: nat :: j >= k ==> Distance(nodes, Iterate(edges, nodes, j), Iterate(edges, nodes, k)) <= bound
  }

  /** At the cap, whatever the graph, the scores are settled to within four thousandths of the total. */
  lemma SettledAtCap(edges: Edges, nodes: seq<NodeId>)
    requires Covers(edges, nodes) && nodes != []
    ensures Settled(edges, nodes, MAX_ITERATIONS, 0.004)
  {
    hide Distance, Iterate, Power, Balanced;
    IterateIsBalanced(edges, nodes, 0);
    IterateIsBalanced(edges, nodes, 1);
    var first := Distance(nodes, Iterate(edges, nodes, 1), Iterate(edges, nodes, 0));
    BalancedDistance(nodes, Iterate(edges, nodes, 1), Iterate(edges, nodes, 0));
    DistanceNonNegative(nodes, Iterate(edges, nodes, 1), Iterate(edges, nodes, 0));
    PowerAtCap();
    ProductBound(Power(MAX_ITERATIONS), first, 0.0003, 2.0);
    forall j: nat | j >= MAX_ITERATIONS
      ensures Distance(nodes, Iterate(edges, nodes, j), Iterate(edges, nodes, MAX_ITERATIONS)) <= 0.004
    {
      IteratesConverge(edges, nodes, MAX_ITERATIONS, j - MAX_ITERATIONS);
    }
  }

  /** After a movement below the threshold, to within six times the threshold. */
  lemma SettledOnStopping(edges: Edges, nodes: seq<NodeId>, k: nat)
    requires Covers(edges, nodes) && nodes != []
    requires Distance(nodes, Iterate(edges, nodes, k + 1), Iterate(edges, nodes, k)) < CONVERGENCE_EPSILON
    ensures Settled(edges, nodes, k + 1, 6.0 * CONVERGENCE_EPSILON)
  {
    hide Distance, Iterate;
    IteratesApproach(edges, nodes, k);
    forall j: nat | j >= k + 1
      ensures Distance(nodes, Iterate(edges, nodes, j), Iterate(edges, nodes, k + 1)) <= 6.0 * CONVERGENCE_EPSILON
    {
      LaterIterates(edges, nodes, k + 1, j - (k + 1));
    }
  }

  // ---- Where the score goes ----

  ghost predicate Scored(edges: Edges, nodes: seq<NodeId>, scores: Scores) {
    Covers(edges, nodes) && nodes != [] && scores.Keys == (set v | v in nodes)
  }

  /** The positions of the edges that leave `s`. */
  ghost function EdgesFrom(edges: Edges, s: NodeId): set<nat> {
    set i: nat | i < |edges| && edges[i].0 == s
  }

  /** What the edge at position `i` carries to its target: an equal part of its source's score. */
  ghost function Carried(edges: Edges, nodes: seq<NodeId>, scores: Scores, i: nat): real
    requires Scored(edges, nodes, scores) && i < |edges|
  {
    assert i in EdgesFrom(edges, edges[i].0);
    scores[edges[i].0] / |EdgesFrom(edges, edges[i].0)| as real
  }

  /** What the first `n` edges carry to `v`: the sum over those whose target is `v`. */
  ghost function Arriving(edges: Edges, nodes: seq<NodeId>, scores: Scores, v: NodeId, n: nat): real
    requires Scored(edges, nodes, scores) && n <= |edges|
  {
    if n == 0 then 0.0
    else
      Arriving(edges, nodes, scores, v, n - 1)
      + if edges[n - 1].1 == v then Carried(edges, nodes, scores, n - 1) else 0.0
  }

  /** The score of the first `n` nodes that no edge leaves. */
  ghost function Stranded(edges: Edges, nodes: seq<NodeId>, scores: Scores, n: nat): real
    requires Scored(edges, nodes, scores) && n <= |nodes|
  {
    if n == 0 then 0.0
    else
      Stranded(edges, nodes, scores, n - 1) + if EdgesFrom(edges, nodes[n - 1]) == {} then scores[nodes[n - 1]] else 0.0
  }

  /** The PageRank equation, over edge positions: a node gets the even undamped part, the damped score that its
      incoming edges carry, and an even part of what is stranded. */
  ghost predicate Follows(edges: Edges, nodes: seq<NodeId>, x: Scores, y: Scores)
    requires Scored(edges, nodes, x)
  {
    && y.Keys == x.Keys
    && forall v :: v in nodes ==>
         y[v] == (1.0 - DAMPING) / |nodes| as real
                 + DAMPING * (Arriving(edges, nodes, x, v, |edges|)
                              + Stranded(edges, nodes, x, |nodes|) / |nodes| as real)
  }

  lemma {:induction false} DegreeIsCount(edges: Edges, s: NodeId)
    ensures OutDegree(edges, s) == |EdgesFrom(edges, s)|
  {
    if edges != [] {
      var n := |edges| - 1;
      DegreeIsCount(edges[..n], s);
      var last: set<nat> := if edges[n].0 == s then {n} else {};
      assert EdgesFrom(edges, s) == EdgesFrom(edges[..n], s) + last;
    }
  }

  lemma DampedPart(a: real, k: real)
    requires k > 0.0
    ensures DAMPING * a / k == DAMPING * (a / k)
  {
  }

  lemma {:induction false} IncomingIsArriving(edges: Edges, nodes: seq<NodeId>, scores: Scores, v: NodeId, n: nat)
    requires Scored(edges, nodes, scores) && n <= |edges|
    ensures Incoming(edges[..n], s => Share(edges, scores, s), v) == DAMPING * Arriving(edges, nodes, scores, v, n)
  {
    hide Covers;
    if n > 0 {
      IncomingIsArriving(edges, nodes, scores, v, n - 1);
      assert edges[..n][..n - 1] == edges[..n - 1];
      var s := edges[n - 1].0;
      DegreeIsCount(edges, s);
      assert n - 1 in EdgesFrom(edges, s);
      EndsAreNodes(edges, nodes, n - 1);
      DampedPart(scores[s], |EdgesFrom(edges, s)| as real);
      assert Share(edges, scores, s) == DAMPING * Carried(edges, nodes, scores, n - 1);
    }
  }

  lemma EndsAreNodes(edges: Edges, nodes: seq<NodeId>, i: nat)
    requires Covers(edges, nodes) && i < |edges|
    ensures edges[i].0 in nodes && edges[i].1 in nodes
  {
  }

  lemma {:induction false} DanglingIsStranded(edges: Edges, nodes: seq<NodeId>, scores: Scores, n: nat)
    requires Scored(edges, nodes, scores) && n <= |nodes|
    ensures Sum(nodes[..n], v => DanglingScore(edges, scores, v)) == Stranded(edges, nodes, scores, n)
  {
    if n > 0 {
      DanglingIsStranded(edges, nodes, scores, n - 1);
      var v := nodes[n - 1];
      assert nodes[..n] == nodes[..n - 1] + [v];
      SumAppend(nodes[..n - 1], v, u => DanglingScore(edges, scores, u));
      DegreeIsCount(edges, v);
    }
  }

  lemma {:induction false} SumAppend(nodes: seq<NodeId>, v: NodeId, f: NodeId -> real)
    ensures Sum(nodes + [v], f) == Sum(nodes, f) + f(v)
  {
    if nodes == [] {
      assert [] + [v] == [v] && [v][1..] == [];
      assert Sum([v], f) == f(v) + Sum([], f);
    } else {
      SumAppend(nodes[1..], v, f);
      assert (nodes + [v])[1..] == nodes[1..] + [v];
    }
  }

  /** The step solves the equation. */
  lemma StepFollows(edges: Edges, nodes: seq<NodeId>, scores: Scores)
    requires Scored(edges, nodes, scores)
    ensures Follows(edges, nodes, scores, Step(edges, nodes, scores))
  {
    hide Covers, Incoming, Arriving, Stranded, Share;
    var n := |nodes| as real;
    DanglingIsStranded(edges, nodes, scores, |nodes|);
    assert nodes[..|nodes|] == nodes && edges[..|edges|] == edges;
    DampedPart(Sum(nodes, v => DanglingScore(edges, scores, v)), n);
    forall v | v in nodes
      ensures Step(edges, nodes, scores)[v]
              == (1.0 - DAMPING) / n
                 + DAMPING * (Arriving(edges, nodes, scores, v, |edges|) + Stranded(edges, nodes, scores, |nodes|) / n)
    {
      IncomingIsArriving(edges, nodes, scores, v, |edges|);
    }
  }

  predicate PointedAt(edges: Edges, v: NodeId) {
    exists i :: 0 <= i < |edges| && edges[i].1 == v
  }

  lemma {:induction false} ArrivingBound(edges: Edges, nodes: seq<NodeId>, scores: Scores, v: NodeId, n: nat)
    requires Scored(edges, nodes, scores) && NonNegative(scores) && n <= |edges|
    ensures Arriving(edges, nodes, scores, v, n) >= 0.0
    ensures !PointedAt(edges, v) ==> Arriving(edges, nodes, scores, v, n) == 0.0
    ensures forall i: nat :: i < n && edges[i].1 == v && scores[edges[i].0] > 0.0 ==>
              Arriving(edges, nodes, scores, v, n) > 0.0
  {
    if n > 0 {
      ArrivingBound(edges, nodes, scores, v, n - 1);
      CarriedBound(edges, nodes, scores, n - 1);
    }
  }

  lemma CarriedBound(edges: Edges, nodes: seq<NodeId>, scores: Scores, i: nat)
    requires Scored(edges, nodes, scores) && NonNegative(scores) && i < |edges|
    ensures Carried(edges, nodes, scores, i) >= 0.0
    ensures scores[edges[i].0] > 0.0 ==> Carried(edges, nodes, scores, i) > 0.0
  {
    assert i in EdgesFrom(edges, edges[i].0);
    DivideBack(scores[edges[i].0], |EdgesFrom(edges, edges[i].0)| as real);
  }

  /** After a step a node that no edge points at has the least score of all, and less than any node that a source
      of positive score points at. */
  lemma PointedAtRanksHigher(edges: Edges, nodes: seq<NodeId>, x: Scores, y: Scores, v: NodeId, u: NodeId)
    requires Scored(edges, nodes, x) && NonNegative(x) && Follows(edges, nodes, x, y)
    requires v in nodes && u in nodes && !PointedAt(edges, v)
    ensures y[v] <= y[u]
    ensures forall i: nat :: i < |edges| && edges[i].1 == u && x[edges[i].0] > 0.0 ==> y[v] < y[u]
  {
    hide Arriving, Stranded, Covers;
    ArrivingBound(edges, nodes, x, v, |edges|);
    ArrivingBound(edges, nodes, x, u, |edges|);
  }

  /** A run of the equation from equal scores. */
  ghost predicate IsTrace(edges: Edges, nodes: seq<NodeId>, trace: seq<Scores>) {
    && trace != []
    && (forall k :: 0 <= k < |trace| ==> Scored(edges, nodes, trace[k]))
    && (forall v :: v in nodes ==> trace[0][v] == 1.0 / |nodes| as real)
    && (forall k: nat :: k < |trace| - 1 ==> Follows(edges, nodes, trace[k], trace[k + 1]))
  }

  lemma {:induction false} IterateHasTrace(edges: Edges, nodes: seq<NodeId>, k: nat) returns (trace: seq<Scores>)
    requires Covers(edges, nodes) && nodes != []
    ensures |trace| == k + 1 && trace[k] == Iterate(edges, nodes, k) && IsTrace(edges, nodes, trace)
  {
    hide Step, Follows;
    KeysOfIterate(edges, nodes, k);
    IterateUnfolds(edges, nodes, k);
    if k == 0 {
      trace := [Iterate(edges, nodes, 0)];
    } else {
      var before := IterateHasTrace(edges, nodes, k - 1);
      IterateUnfolds(edges, nodes, k - 1);
      StepFollows(edges, nodes, before[k - 1]);
      trace := before + [Iterate(edges, nodes, k)];
      forall j: nat | j < |trace| - 1
        ensures Follows(edges, nodes, trace[j], trace[j + 1])
      {
        if j < k - 1 {
          assert trace[j] == before[j] && trace[j + 1] == before[j + 1];
        }
      }
    }
  }

  /** In the result, a node that some edge points at outranks every node that none does. */
  ghost predicate RanksByLinks(edges: Edges, nodes: seq<NodeId>, scores: Scores)
    requires Scored(edges, nodes, scores)
  {
    forall u, v :: u in nodes && v in nodes && !PointedAt(edges, v) ==>
      scores[v] <= scores[u] && (PointedAt(edges, u) ==> scores[v] < scores[u])
  }

  lemma IterateRanksByLinks(edges: Edges, nodes: seq<NodeId>, k: nat)
    requires Covers(edges, nodes) && nodes != [] && k > 0
    ensures Scored(edges, nodes, Iterate(edges, nodes, k)) && RanksByLinks(edges, nodes, Iterate(edges, nodes, k))
  {
    hide Step, Follows, Iterate, PointedAt, Total;
    var x, y := Iterate(edges, nodes, k - 1), Iterate(edges, nodes, k);
    KeysOfIterate(edges, nodes, k);
    KeysOfIterate(edges, nodes, k - 1);
    IterateUnfolds(edges, nodes, k - 1);
    StepFollows(edges, nodes, x);
    IterateIsBalanced(edges, nodes, k - 1);
    UndampedPartIsPositive(nodes);
    forall u, v | u in nodes && v in nodes && !PointedAt(edges, v)
      ensures y[v] <= y[u] && (PointedAt(edges, u) ==> y[v] < y[u])
    {
      PointedAtRanksHigher(edges, nodes, x, y, v, u);
      if PointedAt(edges, u) {
        var i := PointingEdge(edges, nodes, u);
        assert x[edges[i].0] > 0.0;
      }
    }
  }

  lemma PointingEdge(edges: Edges, nodes: seq<NodeId>, u: NodeId) returns (i: nat)
    requires PointedAt(edges, u) && Covers(edges, nodes)
    ensures i < |edges| && edges[i].1 == u && edges[i].0 in nodes
  {
    i :| i < |edges| && edges[i].1 == u;
  }

  // ---- The computation ----

  function Insert(nodes: seq<NodeId>, v: NodeId): seq<NodeId> {
    if v in nodes then nodes else nodes + [v]
  }

  /** The endpoints of the edges, each once. */
  function NodesOf(edges: Edges): seq<NodeId> {
    if edges == [] then []
    else Insert(Insert(NodesOf(edges[..|edges| - 1]), edges[|edges| - 1].0), edges[|edges| - 1].1)
  }

  lemma InsertKeepsDistinct(nodes: seq<NodeId>, v: NodeId)
    requires Distinct(nodes)
    ensures Distinct(Insert(nodes, v)) && v in Insert(nodes, v) && forall u :: u in nodes ==> u in Insert(nodes, v)
  {
  }

  lemma CoversOneMore(edges: Edges, nodes: seq<NodeId>, e: (NodeId, NodeId))
    requires Covers(edges, nodes)
    ensures Covers(edges + [e], Insert(Insert(nodes, e.0), e.1))
  {
    InsertKeepsDistinct(nodes, e.0);
    InsertKeepsDistinct(Insert(nodes, e.0), e.1);
    hide Insert, Distinct;
  }

  lemma {:induction false} NodesOfCovers(edges: Edges)
    ensures Covers(edges, NodesOf(edges)) && (edges != [] ==> NodesOf(edges) != [])
  {
    hide Covers;
    if edges == [] {
      NothingCovered();
    } else {
      var earlier := edges[..|edges| - 1];
      NodesOfCovers(earlier);
      CoversOneMore(earlier, NodesOf(earlier), edges[|edges| - 1]);
      assert edges == earlier + [edges[|edges| - 1]];
    }
  }

  /** Only nodes that touch an edge are scored. */
  lemma {:induction false} NodesAreEndpoints(edges: Edges, v: NodeId)
    requires v in NodesOf(edges)
    ensures exists i :: 0 <= i < |edges| && (edges[i].0 == v || edges[i].1 == v)
  {
    var last := |edges| - 1;
    if edges[last].0 != v && edges[last].1 != v {
      NodesAreEndpoints(edges[..last], v);
      var i :| 0 <= i < last && (edges[..last][i].0 == v || edges[..last][i].1 == v);
      assert edges[i] == edges[..last][i];
    }
  }

  lemma NothingCovered()
    ensures Covers([], [])
  {
  }

  function TargetsOf(edges: Edges, s: NodeId): seq<NodeId> {
    if edges == [] then []
    else
      var earlier := TargetsOf(edges[..|edges| - 1], s);
      if edges[|edges| - 1].0 == s then earlier + [edges[|edges| - 1].1] else earlier
  }

  lemma {:induction false} TargetCount(edges: Edges, s: NodeId)
    ensures |TargetsOf(edges, s)| == OutDegree(edges, s)
  {
    if edges != [] {
      TargetCount(edges[..|edges| - 1], s);
    }
  }

  /** `share` once for every occurrence of `v`. */
  function Received(targets: seq<NodeId>, v: NodeId, share: real): real {
    if targets == [] then 0.0
    else Received(targets[..|targets| - 1], v, share) + if targets[|targets| - 1] == v then share else 0.0
  }

  /** The share of a source, once that source has been dealt with. */
  function DoneShare(edges: Edges, scores: Scores, done: set<NodeId>, s: NodeId): real {
    if s in done then Share(edges, scores, s) else 0.0
  }

  /** Dealing with one more source gives each node that source's share once per edge between them. */
  lemma {:induction false} IncomingOneMore(edges: Edges, w: NodeId -> real, u: NodeId -> real, s: NodeId, v: NodeId)
    requires w(s) == 0.0 && forall x :: x != s ==> u(x) == w(x)
    ensures Incoming(edges, u, v) == Incoming(edges, w, v) + Received(TargetsOf(edges, s), v, u(s))
  {
    if edges != [] {
      var earlier := edges[..|edges| - 1];
      var (x, o) := edges[|edges| - 1];
      IncomingOneMore(earlier, w, u, s, v);
      if x == s {
        var ts := TargetsOf(edges, s);
        assert ts[..|ts| - 1] == TargetsOf(earlier, s) && ts[|ts| - 1] == o;
      } else {
        assert u(x) == w(x);
      }
    }
  }

  method ListNodes(edges: Edges) returns (nodes: seq<NodeId>)
    ensures nodes == NodesOf(edges)
  {
    nodes := [];
    for i := 0 to |edges|
      invariant nodes == NodesOf(edges[..i])
    {
      assert edges[..i + 1][..i] == edges[..i];
      if edges[i].0 !in nodes {
        nodes := nodes + [edges[i].0];
      }
      if edges[i].1 !in nodes {
        nodes := nodes + [edges[i].1];
      }
    }
    assert edges[..|edges|] == edges;
  }

  /** Each source with the targets of its edges, in edge order. */
  ghost predicate Groups(edges: Edges, out: map<NodeId, seq<NodeId>>) {
    && (forall s :: s in out <==> TargetsOf(edges, s) != [])
    && (forall s :: s in out ==> out[s] == TargetsOf(edges, s))
  }

  method GroupTargets(edges: Edges) returns (out: map<NodeId, seq<NodeId>>)
    ensures Groups(edges, out)
  {
    out := map[];
    for i := 0 to |edges|
      invariant Groups(edges[..i], out)
    {
      var (s, o) := edges[i];
      assert edges[..i + 1][..i] == edges[..i];
      out := out[s := (if s in out then out[s] else []) + [o]];
    }
    assert edges[..|edges|] == edges;
  }

  method DanglingMass(edges: Edges, nodes: seq<NodeId>, out: map<NodeId, seq<NodeId>>, scores: Scores)
    returns (mass: real)
    requires Groups(edges, out) && forall v :: v in nodes ==> v in scores
    ensures mass == Sum(nodes, v => DanglingScore(edges, scores, v))
  {
    mass := 0.0;
    var f := v => DanglingScore(edges, scores, v);
    for i := 0 to |nodes|
      invariant mass + Sum(nodes[i..], f) == Sum(nodes, f)
    {
      TargetCount(edges, nodes[i]);
      assert nodes[i..][1..] == nodes[i + 1..];
      if nodes[i] !in out {
        mass := mass + scores[nodes[i]];
      }
    }
  }

  method Movement(nodes: seq<NodeId>, x: Scores, y: Scores) returns (diff: real)
    requires forall v :: v in nodes ==> v in x && v in y
    ensures diff == Distance(nodes, x, y)
  {
    diff := 0.0;
    var f := v => Gap(x, y, v);
    for i := 0 to |nodes|
      invariant diff + Sum(nodes[i..], f) == Sum(nodes, f)
    {
      assert nodes[i..][1..] == nodes[i + 1..];
      diff := diff + AbsReal(x[nodes[i]] - y[nodes[i]]);
    }
  }

  /** Passes one source's share along each of its edges. */
  method PassOn(nodes: seq<NodeId>, scores: Scores, targets: seq<NodeId>, share: real) returns (result: Scores)
    requires scores.Keys == (set v | v in nodes) && forall t :: t in targets ==> t in nodes
    ensures result.Keys == scores.Keys
    ensures forall v :: v in nodes ==> result[v] == scores[v] + Received(targets, v, share)
  {
    result := scores;
    for j := 0 to |targets|
      invariant result.Keys == scores.Keys
      invariant forall v :: v in nodes ==> result[v] == scores[v] + Received(targets[..j], v, share)
    {
      assert targets[..j + 1][..j] == targets[..j];
      var t := targets[j];
      assert t in targets;
      result := result[t := result[t] + share];
    }
    assert targets[..|targets|] == targets;
  }

  lemma {:induction false} TargetsAreCovered(edges: Edges, nodes: seq<NodeId>, s: NodeId)
    requires Covers(edges, nodes)
    ensures forall t :: t in TargetsOf(edges, s) ==> t in nodes
    ensures TargetsOf(edges, s) != [] ==> s in nodes
  {
    if edges != [] {
      TargetsAreCovered(edges[..|edges| - 1], nodes, s);
    }
  }

  lemma {:induction false} IncomingEqual(edges: Edges, w: NodeId -> real, u: NodeId -> real, v: NodeId)
    requires forall s :: w(s) == u(s)
    ensures Incoming(edges, w, v) == Incoming(edges, u, v)
  {
    if edges != [] {
      IncomingEqual(edges[..|edges| - 1], w, u, v);
      assert w(edges[|edges| - 1].0) == u(edges[|edges| - 1].0);
    }
  }

  lemma {:induction false} NothingIncoming(edges: Edges, w: NodeId -> real, v: NodeId)
    requires forall s :: w(s) == 0.0
    ensures Incoming(edges, w, v) == 0.0
  {
    if edges != [] {
      NothingIncoming(edges[..|edges| - 1], w, v);
      assert w(edges[|edges| - 1].0) == 0.0;
    }
  }

  /** What `v` has received once the sources in `done` have been dealt with. */
  function IncomingFrom(edges: Edges, scores: Scores, done: set<NodeId>, v: NodeId): real {
    Incoming(edges, s => DoneShare(edges, scores, done, s), v)
  }

  lemma FromNone(edges: Edges, scores: Scores, v: NodeId)
    ensures IncomingFrom(edges, scores, {}, v) == 0.0
  {
    NothingIncoming(edges, s => DoneShare(edges, scores, {}, s), v);
  }

  lemma FromOneMore(edges: Edges, scores: Scores, done: set<NodeId>, source: NodeId, v: NodeId)
    requires source !in done
    ensures IncomingFrom(edges, scores, done + {source}, v) ==
            IncomingFrom(edges, scores, done, v) + Received(TargetsOf(edges, source), v, Share(edges, scores, source))
  {
    hide Share;
    IncomingOneMore(edges, s => DoneShare(edges, scores, done, s), s => DoneShare(edges, scores, done + {source}, s),
                    source, v);
  }

  lemma FromAll(edges: Edges, out: map<NodeId, seq<NodeId>>, scores: Scores, v: NodeId)
    requires Groups(edges, out)
    ensures IncomingFrom(edges, scores, out.Keys, v) == Incoming(edges, s => Share(edges, scores, s), v)
  {
    forall s
      ensures DoneShare(edges, scores, out.Keys, s) == Share(edges, scores, s)
    {
      TargetCount(edges, s);
    }
    IncomingEqual(edges, s => DoneShare(edges, scores, out.Keys, s), s => Share(edges, scores, s), v);
  }

  /** Deals with the sources in any order; the result is the reference step. */
  method Advance(edges: Edges, nodes: seq<NodeId>, out: map<NodeId, seq<NodeId>>, scores: Scores)
    returns (next: Scores)
    requires Covers(edges, nodes) && nodes != [] && Groups(edges, out) && scores.Keys == (set v | v in nodes)
    ensures next == Step(edges, nodes, scores)
  {
    hide Share, Base, Incoming, Sum, IncomingFrom, DanglingScore, Received;
    var mass := DanglingMass(edges, nodes, out, scores);
    var n := |nodes| as real;
    var base := (1.0 - DAMPING) / n + DAMPING * mass / n;
    BaseIs(edges, nodes, scores, mass);
    next := map v | v in nodes :: base;
    var rest := out.Keys;
    ghost var done: set<NodeId> := {};
    forall v | v in nodes
      ensures IncomingFrom(edges, scores, {}, v) == 0.0
    {
      FromNone(edges, scores, v);
    }
    while rest != {}
      invariant done !! rest && done + rest == out.Keys
      invariant next.Keys == scores.Keys
      invariant forall v :: v in nodes ==> next[v] == base + IncomingFrom(edges, scores, done, v)
      decreases rest
    {
      var source :| source in rest;
      var share := SourceShare(edges, nodes, out, scores, source);
      TargetsAreCovered(edges, nodes, source);
      next := PassOn(nodes, next, out[source], share);
      forall v | v in nodes
        ensures IncomingFrom(edges, scores, done + {source}, v) ==
                IncomingFrom(edges, scores, done, v) + Received(out[source], v, share)
      {
        FromOneMore(edges, scores, done, source, v);
      }
      done, rest := done + {source}, rest - {source};
    }
    assert done == out.Keys;
    forall v | v in nodes
      ensures next[v] == Step(edges, nodes, scores)[v]
    {
      FromAll(edges, out, scores, v);
    }
  }

  lemma BaseIs(edges: Edges, nodes: seq<NodeId>, scores: Scores, mass: real)
    requires nodes != [] && mass == Sum(nodes, v => DanglingScore(edges, scores, v))
    ensures Base(edges, nodes, scores) == (1.0 - DAMPING) / |nodes| as real + DAMPING * mass / |nodes| as real
  {
  }

  method SourceShare(edges: Edges, nodes: seq<NodeId>, out: map<NodeId, seq<NodeId>>, scores: Scores, source: NodeId)
    returns (share: real)
    requires Covers(edges, nodes) && Groups(edges, out) && scores.Keys == (set v | v in nodes) && source in out
    ensures share == Share(edges, scores, source)
  {
    TargetsAreCovered(edges, nodes, source);
    TargetCount(edges, source);
    share := DAMPING * scores[source] / |out[source]| as real;
  }

  /** Every iterate up to `k` moved by at least the threshold. */
  ghost predicate KeepsMoving(edges: Edges, nodes: seq<NodeId>, k: nat)
    requires nodes != []
  {
    forall j :: 1 <= j <= k ==>
      Distance(nodes, Iterate(edges, nodes, j), Iterate(edges, nodes, j - 1)) >= CONVERGENCE_EPSILON
  }

  /** Stops at the first iterate that moved less than the threshold, or after the cap. */
  method PowerIterate(edges: Edges, nodes: seq<NodeId>) returns (scores: Scores, iterations: nat)
    requires Covers(edges, nodes) && nodes != []
    ensures 1 <= iterations <= MAX_ITERATIONS && scores == Iterate(edges, nodes, iterations)
    ensures KeepsMoving(edges, nodes, iterations - 1)
    ensures iterations < MAX_ITERATIONS ==>
              Distance(nodes, scores, Iterate(edges, nodes, iterations - 1)) < CONVERGENCE_EPSILON
  {
    hide Distance, Covers, Step, Iterate;
    var out := GroupTargets(edges);
    IterateUnfolds(edges, nodes, 0);
    scores := Uniform(nodes);
    iterations := 0;
    while iterations < MAX_ITERATIONS
      invariant iterations <= MAX_ITERATIONS
      invariant scores == Iterate(edges, nodes, iterations)
      invariant KeepsMoving(edges, nodes, iterations)
    {
      IterateUnfolds(edges, nodes, iterations);
      KeysOfIterate(edges, nodes, iterations);
      KeysOfIterate(edges, nodes, iterations + 1);
      var next := Advance(edges, nodes, out, scores);
      var diff := Movement(nodes, next, scores);
      iterations := iterations + 1;
      scores := next;
      if diff < CONVERGENCE_EPSILON {
        break;
      }
    }
  }

  /** The result follows from equal scores by the PageRank equation, is balanced, ranks by links, is the iterate at
      which the iteration was to stop, and is settled: further iteration, however long, would hardly change it. */
  ghost predicate IsPageRank(
    edges: Edges, nodes: seq<NodeId>, scores: Scores, iterations: nat, trace: seq<Scores>)
  {
    && Covers(edges, nodes) && nodes != []
    && 1 <= iterations <= MAX_ITERATIONS && scores == Iterate(edges, nodes, iterations)
    && |trace| == iterations + 1 && trace[iterations] == scores && IsTrace(edges, nodes, trace)
    && Balanced(nodes, scores) && RanksByLinks(edges, nodes, scores)
    && KeepsMoving(edges, nodes, iterations - 1)
    && (iterations < MAX_ITERATIONS ==>
          Distance(nodes, scores, Iterate(edges, nodes, iterations - 1)) < CONVERGENCE_EPSILON)
    && Settled(edges, nodes, iterations, if iterations < MAX_ITERATIONS then 6.0 * CONVERGENCE_EPSILON else 0.004)
  }

  lemma StoppedIterateIsPageRank(edges: Edges, nodes: seq<NodeId>, k: nat) returns (trace: seq<Scores>)
    requires Covers(edges, nodes) && nodes != [] && 1 <= k <= MAX_ITERATIONS && KeepsMoving(edges, nodes, k - 1)
    requires k < MAX_ITERATIONS ==>
               Distance(nodes, Iterate(edges, nodes, k), Iterate(edges, nodes, k - 1)) < CONVERGENCE_EPSILON
    ensures IsPageRank(edges, nodes, Iterate(edges, nodes, k), k, trace)
  {
    hide Distance, Balanced, Covers, Step, Settled, Iterate, KeepsMoving, Follows, RanksByLinks;
    IterateIsBalanced(edges, nodes, k);
    IterateRanksByLinks(edges, nodes, k);
    trace := IterateHasTrace(edges, nodes, k);
    if k < MAX_ITERATIONS {
      SettledOnStopping(edges, nodes, k - 1);
    } else {
      SettledAtCap(edges, nodes);
    }
  }

  method ComputePageRank(edges: Edges) returns (scores: Scores, iterations: nat, ghost trace: seq<Scores>)
    ensures edges == [] ==> scores == map[] && iterations == 0
    ensures edges != [] ==> IsPageRank(edges, NodesOf(edges), scores, iterations, trace)
  {
    hide Distance, Covers, Step, Iterate, KeepsMoving, IsPageRank;
    trace := [];
    var nodes := ListNodes(edges);
    NodesOfCovers(edges);
    if nodes == [] {
      return map[], 0, [];
    }
    scores, iterations := PowerIterate(edges, nodes);
    trace := StoppedIterateIsPageRank(edges, nodes, iterations);
  }

  lemma IterateUnfolds(edges: Edges, nodes: seq<NodeId>, k: nat)
    requires nodes != []
    ensures Iterate(edges, nodes, 0) == Uniform(nodes)
    ensures Iterate(edges, nodes, k + 1) == Step(edges, nodes, Iterate(edges, nodes, k))
  {
  }

  lemma KeysOfIterate(edges: Edges, nodes: seq<NodeId>, k: nat)
    requires nodes != []
    ensures Iterate(edges, nodes, k).Keys == (set v | v in nodes)
  {
  }
}
