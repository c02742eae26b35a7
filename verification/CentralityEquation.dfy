/**
 * What the scores say about the references: the equation of one iteration and of the true scores, over the network's
 * adjacency and over the edges of a relation graph.
 */
module CentralityEquation {
  import opened Options
  import opened Digraphs
  import opened Sums
  import opened Chains
  import opened PowerIteration
  import opened Centrality
  import opened CentralityProperties
  import opened GraphBuilder

  /** The scores are teleported by the positive weights on nodes when there are any, evenly otherwise. */
  lemma TeleportFollowsWeights(net: Network, personalization: Option<Vec>, weight: Scores<Node>, v: Node)
    requires v in net.nodes
    requires forall u :: u in net.nodes ==>
      weight(u) == if personalization.Some? && u in personalization.value && personalization.value[u] > 0.0
                   then personalization.value[u] else 0.0
    ensures var total := Sum(net.nodes, weight);
            At(TeleportVec(net, personalization), v) == if total > 0.0 then weight(v) / total else 1.0 / |net.nodes| as real
  {
    hide Sum;
    SumCongruence(net.nodes, weight, Bias(personalization));
  }

  /** Each node that has references divides its score evenly among them. */
  ghost predicate PaysOut(net: Network, p: Scores<Node>, outflow: Scores<Node>)
    requires net.Valid()
  {
    forall u :: u in net.nodes && net.fwd[u] != {} ==> outflow(u) == p(u) / |net.fwd[u]| as real
  }

  /** Teleport share, share of what sinks hold, and what the sources pay. */
  function Received(d: real, t: real, dangling: real, referred: real): real {
    (1.0 - d) * t + d * t * dangling + d * referred
  }

  lemma StepIsReceived(net: Network, t: Vec, d: real, p: Scores<Node>, sinks: set<Node>, sources: set<Node>,
                       outflow: Scores<Node>, v: Node)
    requires net.Valid() && v in net.nodes && PaysOut(net, p, outflow)
    requires forall u :: u in sinks <==> u in net.nodes && net.fwd[u] == {}
    requires forall u :: u in sources <==> u in net.nodes && v in net.fwd[u]
    ensures Surfer(net, t, d).Next(p)(v) == Received(d, At(t, v), Sum(sinks, p), Sum(sources, outflow))
  {
    hide Sum, Pushed, DanglingShare, At, Scoring, Surfer, Step, Kernel, PaysOut, Received, Product;
    var s: Vec := map u | u in net.nodes :: p(u);
    StepReadsNodes(net, t, d, p, s, v);
    SinksAreDangling(net, s, p, sinks);
    SourcesPush(net, d, s, p, sources, outflow, v);
    Parts(net, t, d, s, v, Sum(sinks, p), Sum(sources, outflow));
  }

  /** What one iteration gives a node: a teleport share, a share of what sinks hold, and one of each source per reference. */
  lemma StepFollowsEdges(net: Network, t: Vec, d: real, p: Scores<Node>, sinks: set<Node>, sources: set<Node>,
                         outflow: Scores<Node>, v: Node)
    requires net.Valid() && v in net.nodes && PaysOut(net, p, outflow)
    requires forall u :: u in sinks <==> u in net.nodes && net.fwd[u] == {}
    requires forall u :: u in sources <==> u in net.nodes && v in net.fwd[u]
    ensures Surfer(net, t, d).Next(p)(v)
         == (1.0 - d) * At(t, v) + d * At(t, v) * Sum(sinks, p) + d * Sum(sources, outflow)
  {
    hide Sum, At, Surfer, Step, PaysOut;
    StepIsReceived(net, t, d, p, sinks, sources, outflow, v);
  }

  /** A product that is not looked into. */
  function Product(a: real, b: real): real {
    a * b
  }

  lemma Parts(net: Network, t: Vec, d: real, s: Vec, v: Node, dangling: real, referred: real)
    requires dangling == Sum(net.nodes, DanglingShare(net, s))
    requires Pushed(net, d, s, v, net.nodes) == Product(d, referred)
    ensures Surfer(net, t, d).Next(Scoring(s))(v) == Received(d, At(t, v), dangling, referred)
  {
    PushedEqualsPulled(net, t, d, s, v);
    hide Sum, Pushed, DanglingShare, At, Scoring, Surfer, Step, Kernel;
    Rearranged(d, At(t, v), dangling, Pushed(net, d, s, v, net.nodes), referred, Surfer(net, t, d).Next(Scoring(s))(v));
  }

  lemma Rearranged(d: real, x: real, m: real, y: real, referred: real, next: real)
    requires (1.0 - d) * x + d * m * x + y == next && y == Product(d, referred)
    ensures next == Received(d, x, m, referred)
  {
    RotateFactors(d, x, m);
  }

  lemma StepReadsNodes(net: Network, t: Vec, d: real, p: Scores<Node>, s: Vec, v: Node)
    requires s.Keys == net.nodes && forall u :: u in net.nodes ==> s[u] == p(u)
    ensures Surfer(net, t, d).Next(p)(v) == Surfer(net, t, d).Next(Scoring(s))(v)
  {
    hide Step;
    NextReadsOnlyStates(Surfer(net, t, d), p, Scoring(s), v);
  }

  lemma SinksAreDangling(net: Network, s: Vec, p: Scores<Node>, sinks: set<Node>)
    requires net.Valid() && s.Keys == net.nodes && forall u :: u in net.nodes ==> s[u] == p(u)
    requires forall u :: u in sinks <==> u in net.nodes && net.fwd[u] == {}
    ensures Sum(net.nodes, DanglingShare(net, s)) == Sum(sinks, p)
  {
    hide Sum;
    assert forall u :: u in sinks ==> u in net.nodes;
    SumSupport(net.nodes, sinks, DanglingShare(net, s));
    SumCongruence(sinks, DanglingShare(net, s), p);
  }

  lemma SourcesPush(net: Network, d: real, s: Vec, p: Scores<Node>, sources: set<Node>, outflow: Scores<Node>, v: Node)
    requires net.Valid() && s.Keys == net.nodes && forall u :: u in net.nodes ==> s[u] == p(u)
    requires forall u :: u in sources <==> u in net.nodes && v in net.fwd[u]
    requires PaysOut(net, p, outflow)
    ensures Pushed(net, d, s, v, net.nodes) == Product(d, Sum(sources, outflow))
  {
    hide Sum, Gift, PushTerm, PaysOut;
    assert forall u :: u in sources ==> u in net.nodes;
    forall u | u in net.nodes
      ensures PushTo(net, d, s, v)(u) == if u in sources then Scaled(d, outflow)(u) else 0.0
    {
      PushOfSource(net, d, s, p, v, u, outflow);
    }
    SumSupport(net.nodes, sources, PushTo(net, d, s, v));
    SumCongruence(sources, PushTo(net, d, s, v), Scaled(d, outflow));
    SumScale(sources, d, outflow, Scaled(d, outflow));
  }

  lemma PushOfSource(net: Network, d: real, s: Vec, p: Scores<Node>, v: Node, u: Node, outflow: Scores<Node>)
    requires net.Valid() && u in net.nodes && u in s && s[u] == p(u) && PaysOut(net, p, outflow)
    ensures PushTerm(net, d, s, u, v) == if v in net.fwd[u] then Scaled(d, outflow)(u) else 0.0
  {
    hide PaysOut, Share;
    if v in net.fwd[u] {
      PaidPerReference(net, p, outflow, u);
      ShareIsPortion(d, p(u), |net.fwd[u]|);
    }
  }

  function Portion(score: real, degree: nat): real
    requires degree != 0
  {
    score / degree as real
  }

  lemma PaidPerReference(net: Network, p: Scores<Node>, outflow: Scores<Node>, u: Node)
    requires net.Valid() && u in net.nodes && net.fwd[u] != {} && PaysOut(net, p, outflow)
    ensures outflow(u) == Portion(p(u), |net.fwd[u]|)
  {
  }

  lemma ShareIsPortion(d: real, x: real, n: nat)
    requires n != 0
    ensures Share(d, x, n) == d * Portion(x, n)
  {
    ProductOverDegree(d, x, n as real);
  }

  lemma ProductOverDegree(d: real, x: real, n: real)
    requires n != 0.0
    ensures d * x / n == d * (x / n)
  {
  }

  /** Scores p are balanced at v: it holds its teleport share, its share of the sinks' scores, and what its sources pay. */
  ghost predicate Balanced(net: Network, t: Vec, d: real, p: Scores<Node>, sinks: set<Node>, outflow: Scores<Node>, v: Node)
    requires net.Valid()
  {
    p(v) == (1.0 - d) * At(t, v) + d * At(t, v) * Sum(sinks, p)
            + d * Sum((set u | u in net.nodes && v in net.fwd[u]), outflow)
  }

  lemma BalancedIsReceived(net: Network, t: Vec, d: real, p: Scores<Node>, sinks: set<Node>, outflow: Scores<Node>, v: Node)
    requires net.Valid()
    ensures Balanced(net, t, d, p, sinks, outflow, v) <==>
            p(v) == Received(d, At(t, v), Sum(sinks, p), Sum((set u | u in net.nodes && v in net.fwd[u]), outflow))
  {
    hide Sum, At;
  }

  /** The true scores are those that are balanced at every node. */
  lemma FixedIffBalanced(net: Network, d: real, personalization: Option<Vec>, p: Scores<Node>, sinks: set<Node>,
                         outflow: Scores<Node>)
    requires net.Valid() && net.nodes != {} && PaysOut(net, p, outflow)
    requires forall u :: u in sinks <==> u in net.nodes && net.fwd[u] == {}
    ensures RankChain(net, d, personalization).Fixed(p) <==>
            forall v :: v in net.nodes ==> Balanced(net, TeleportVec(net, personalization), d, p, sinks, outflow, v)
  {
    hide Sum, At, PaysOut, Step, TeleportVec, Balanced, Received;
    var c, t := RankChain(net, d, personalization), TeleportVec(net, personalization);
    forall v | v in net.nodes
      ensures c.Next(p)(v) == p(v) <==> Balanced(net, t, d, p, sinks, outflow, v)
    {
      BalancedIsReceived(net, t, d, p, sinks, outflow, v);
      StepIsReceived(net, t, d, p, sinks, (set u | u in net.nodes && v in net.fwd[u]), outflow, v);
    }
  }

  /* ----- the ranking, iteration by iteration ----- */

  lemma {:induction false} NoEarlyExit(c: Chain<Node>, f: Scores<Node>, fuel: nat)
    ensures c.Steps(f, 0.0, fuel) == fuel
    decreases fuel
  {
    hide Step, Distance;
    if fuel != 0 {
      DistanceSymmetric(c.states, c.Next(f), f);
      NoEarlyExit(c, c.Next(f), fuel - 1);
    }
  }

  /** Without a tolerance the ranking is the iterate of that number. */
  lemma RankIsIterateNumber(net: Network, d: real, k: nat, personalization: Option<Vec>)
    requires net.Valid() && net.nodes != {} && 0.0 <= d <= 1.0
    ensures Agrees(net.nodes, Rank(net, d, k, 0.0, personalization),
                   RankChain(net, d, personalization).After(Start(net), k))
  {
    RankIsIterate(net, d, k, 0.0, personalization);
    NoEarlyExit(RankChain(net, d, personalization), Start(net), k);
  }

  /** All nodes start with the same score. */
  lemma RankStarts(net: Network, d: real, personalization: Option<Vec>, v: Node)
    requires net.Valid() && v in net.nodes && 0.0 <= d <= 1.0
    ensures var r := Rank(net, d, 0, 0.0, personalization); v in r && r[v] == 1.0 / |net.nodes| as real
  {
    hide Rank;
    RankIsIterateNumber(net, d, 0, personalization);
  }

  lemma RankReceives(net: Network, d: real, k: nat, personalization: Option<Vec>, sinks: set<Node>, sources: set<Node>,
                     outflow: Scores<Node>, v: Node)
    requires net.Valid() && v in net.nodes && 0.0 <= d <= 1.0
    requires forall u :: u in sinks <==> u in net.nodes && net.fwd[u] == {}
    requires forall u :: u in sources <==> u in net.nodes && v in net.fwd[u]
    requires PaysOut(net, Scoring(Rank(net, d, k, 0.0, personalization)), outflow)
    ensures var r, next := Rank(net, d, k, 0.0, personalization), Rank(net, d, k + 1, 0.0, personalization);
            && v in next
            && next[v] == Received(d, At(TeleportVec(net, personalization), v), Sum(sinks, Scoring(r)), Sum(sources, outflow))
  {
    hide Sum, At, PaysOut, Step, TeleportVec, Rank, Received;
    var c, p := RankChain(net, d, personalization), Scoring(Rank(net, d, k, 0.0, personalization));
    RankIsIterateNumber(net, d, k, personalization);
    RankIsIterateNumber(net, d, k + 1, personalization);
    AgreeingNext(net, c, Rank(net, d, k, 0.0, personalization), c.After(Start(net), k), v);
    StepIsReceived(net, TeleportVec(net, personalization), d, p, sinks, sources, outflow, v);
  }

  /** One more iteration gives every node what the iteration before pays along the references. */
  lemma RankSteps(net: Network, d: real, k: nat, personalization: Option<Vec>, sinks: set<Node>, sources: set<Node>,
                  outflow: Scores<Node>, v: Node)
    requires net.Valid() && v in net.nodes && 0.0 <= d <= 1.0
    requires forall u :: u in sinks <==> u in net.nodes && net.fwd[u] == {}
    requires forall u :: u in sources <==> u in net.nodes && v in net.fwd[u]
    requires PaysOut(net, Scoring(Rank(net, d, k, 0.0, personalization)), outflow)
    ensures var t, r, next := TeleportVec(net, personalization), Rank(net, d, k, 0.0, personalization),
                              Rank(net, d, k + 1, 0.0, personalization);
            v in next && next[v] == (1.0 - d) * At(t, v) + d * At(t, v) * Sum(sinks, Scoring(r)) + d * Sum(sources, outflow)
  {
    hide Sum, At, PaysOut, TeleportVec, Rank;
    RankReceives(net, d, k, personalization, sinks, sources, outflow, v);
  }

  lemma AgreeingNext(net: Network, c: Chain<Node>, s: Vec, f: Scores<Node>, v: Node)
    requires c.states == net.nodes && Agrees(net.nodes, s, f)
    ensures c.Next(f)(v) == c.Next(Scoring(s))(v)
  {
    hide Step;
    NextReadsOnlyStates(c, Scoring(s), f, v);
  }

  /** By how much the k-th iteration changes the scores. */
  ghost function Change(net: Network, d: real, personalization: Option<Vec>, k: nat): real
    requires 1 <= k
  {
    var before, after := Rank(net, d, k - 1, 0.0, personalization), Rank(net, d, k, 0.0, personalization);
    Sum(net.nodes, v => Abs(At(after, v) - At(before, v)))
  }

  lemma ChangeIsDelta(net: Network, d: real, personalization: Option<Vec>, k: nat)
    requires net.Valid() && net.nodes != {} && 0.0 <= d <= 1.0 && 1 <= k
    ensures Change(net, d, personalization, k) == RankChain(net, d, personalization).Delta(Start(net), k)
  {
    hide Sum, Rank, Step, TeleportVec;
    var c := RankChain(net, d, personalization);
    var before, after := Rank(net, d, k - 1, 0.0, personalization), Rank(net, d, k, 0.0, personalization);
    var f, g := c.After(Start(net), k), c.After(Start(net), k - 1);
    var gap := v => Abs(At(after, v) - At(before, v));
    RankIsIterateNumber(net, d, k - 1, personalization);
    RankIsIterateNumber(net, d, k, personalization);
    SumCongruence(net.nodes, gap, Difference(f, g));
    SumCongruence(net.nodes, v => Abs(At(after, v) - At(before, v)), gap);
  }

  /** With a tolerance the ranking is that after the first iteration that changes less, or after the last one. */
  lemma RankStops(net: Network, d: real, iterations: int, tolerance: real, personalization: Option<Vec>) returns (k: nat)
    requires net.Valid() && net.nodes != {} && 0.0 <= d <= 1.0
    ensures Rank(net, d, iterations, tolerance, personalization) == Rank(net, d, k, 0.0, personalization)
    ensures forall j: nat :: 1 <= j < k ==> tolerance <= Change(net, d, personalization, j)
    ensures k == (if iterations < 0 then 0 else iterations)
         || (1 <= k < iterations && Change(net, d, personalization, k) < tolerance)
  {
    hide Sum, Rank, Step, TeleportVec, Change, Distance;
    var c := RankChain(net, d, personalization);
    k := c.Steps(Start(net), tolerance, Fuel(iterations));
    RankIsIterate(net, d, iterations, tolerance, personalization);
    RankIsIterateNumber(net, d, k, personalization);
    VecsAreEqual(Rank(net, d, iterations, tolerance, personalization), Rank(net, d, k, 0.0, personalization));
    RunStopsAtFirstSmallChange(c, Start(net), tolerance, Fuel(iterations));
    forall j: nat | 1 <= j <= k
      ensures Change(net, d, personalization, j) == c.Delta(Start(net), j)
    {
      ChangeIsDelta(net, d, personalization, j);
    }
  }

  /* ----- relation graphs ----- */

  /** The nodes of the graph with these edges. */
  ghost predicate AreNodes(nodes: set<Node>, edges: set<Edge>) {
    forall u :: u in nodes <==> exists e :: e in edges && (e.src == u || e.dst == u)
  }

  /** Each node that has references divides its score evenly among the nodes they lead to. */
  ghost predicate PaysAlong(edges: set<Edge>, p: Scores<Node>, outflow: Scores<Node>) {
    forall e :: e in edges ==> (
      var targets := set f | f in edges && f.src == e.src :: f.dst;
      assert e.dst in targets;
      outflow(e.src) == p(e.src) / |targets| as real)
  }

  lemma NetworkOfEdges(nodes: set<Node>, edges: set<Edge>)
    requires AreNodes(nodes, edges)
    ensures NetworkOf(edges).Valid() && NetworkOf(edges).nodes == nodes
    ensures forall u :: u in nodes ==> NetworkOf(edges).fwd[u] == set e | e in edges && e.src == u :: e.dst
  {
    assert Nodes(edges) == nodes;
  }

  /** Scores of a graph after one more iteration, by its edges. */
  lemma GraphScoresFollowEdges(edges: set<Edge>, nodes: set<Node>, d: real, k: nat, sinks: set<Node>, sources: set<Node>,
                               outflow: Scores<Node>, v: Node)
    requires AreNodes(nodes, edges) && v in nodes && 0.0 <= d <= 1.0
    requires forall u :: u in sinks <==> u in nodes && !exists e :: e in edges && e.src == u
    requires forall u :: u in sources <==> Edge(u, v) in edges
    requires PaysAlong(edges, Scoring(Rank(NetworkOf(edges), d, k, 0.0, None)), outflow)
    ensures var n, r, next := |nodes| as real, Rank(NetworkOf(edges), d, k, 0.0, None), Rank(NetworkOf(edges), d, k + 1, 0.0, None);
            v in next && next[v] == (1.0 - d) * (1.0 / n) + d * (1.0 / n) * Sum(sinks, Scoring(r)) + d * Sum(sources, outflow)
  {
    hide Sum, Scoring, Rank, PaysOut, NetworkOf;
    GraphReceives(edges, nodes, d, k, sinks, sources, outflow, v);
  }

  lemma GraphReceives(edges: set<Edge>, nodes: set<Node>, d: real, k: nat, sinks: set<Node>, sources: set<Node>,
                      outflow: Scores<Node>, v: Node)
    requires AreNodes(nodes, edges) && v in nodes && 0.0 <= d <= 1.0
    requires forall u :: u in sinks <==> u in nodes && !exists e :: e in edges && e.src == u
    requires forall u :: u in sources <==> Edge(u, v) in edges
    requires PaysAlong(edges, Scoring(Rank(NetworkOf(edges), d, k, 0.0, None)), outflow)
    ensures var r, next := Rank(NetworkOf(edges), d, k, 0.0, None), Rank(NetworkOf(edges), d, k + 1, 0.0, None);
            v in next && next[v] == Received(d, 1.0 / |nodes| as real, Sum(sinks, Scoring(r)), Sum(sources, outflow))
  {
    hide Sum, Scoring, Rank, Received, PaysOut, PaysAlong, NetworkOf;
    var net := NetworkOf(edges);
    NetworkOfEdges(nodes, edges);
    SinksAndSources(edges, nodes, sinks, sources, v);
    PaysAlongNetwork(edges, nodes, Scoring(Rank(net, d, k, 0.0, None)), outflow);
    RankReceives(net, d, k, None, sinks, sources, outflow, v);
    EvenTeleport(net, v);
  }

  lemma SinksAndSources(edges: set<Edge>, nodes: set<Node>, sinks: set<Node>, sources: set<Node>, v: Node)
    requires AreNodes(nodes, edges)
    requires forall u :: u in sinks <==> u in nodes && !exists e :: e in edges && e.src == u
    requires forall u :: u in sources <==> Edge(u, v) in edges
    ensures var net := NetworkOf(edges);
            && net.nodes == nodes && net.fwd.Keys == nodes
            && (forall u :: u in sinks <==> u in net.nodes && net.fwd[u] == {})
            && (forall u :: u in sources <==> u in net.nodes && v in net.fwd[u])
  {
    NetworkOfEdges(nodes, edges);
    forall u | u in nodes
      ensures NetworkOf(edges).fwd[u] == {} <==> !exists e :: e in edges && e.src == u
    {
      if e :| e in edges && e.src == u {
        assert e.dst in NetworkOf(edges).fwd[u];
      }
    }
    forall u
      ensures Edge(u, v) in edges ==> u in nodes
    {
    }
  }

  lemma EvenTeleport(net: Network, v: Node)
    requires v in net.nodes
    ensures At(TeleportVec(net, None), v) == 1.0 / |net.nodes| as real
  {
    SumConstant(net.nodes, 0.0, Bias(None));
  }

  lemma PaysAlongNetwork(edges: set<Edge>, nodes: set<Node>, p: Scores<Node>, outflow: Scores<Node>)
    requires AreNodes(nodes, edges) && PaysAlong(edges, p, outflow)
    ensures NetworkOf(edges).Valid() && PaysOut(NetworkOf(edges), p, outflow)
  {
    hide NetworkOf;
    NetworkOfEdges(nodes, edges);
    var net := NetworkOf(edges);
    forall u | u in net.nodes && net.fwd[u] != {}
      ensures outflow(u) == p(u) / |net.fwd[u]| as real
    {
      var w :| w in net.fwd[u];
      assert Edge(u, w) in edges;
    }
  }

  /** The ranking of a relation graph is that of the first iteration that changes little, or of the hundredth. */
  lemma DefaultRankStops(edges: set<Edge>) returns (k: nat)
    ensures edges == {} ==> DefaultRank(edges) == map[]
    ensures edges != {} ==>
              && DefaultRank(edges) == Rank(NetworkOf(edges), 0.85, k, 0.0, None)
              && (forall j: nat :: 1 <= j < k ==> 0.00000001 <= Change(NetworkOf(edges), 0.85, None, j))
              && (k == 100 || (1 <= k < 100 && Change(NetworkOf(edges), 0.85, None, k) < 0.00000001))
  {
    hide Rank, Change, NetworkOf, DefaultRank;
    DefaultSettings(edges);
    if edges == {} {
      k := 0;
    } else {
      HasNodes(edges);
      k := RankStops(NetworkOf(edges), 0.85, 100, 0.00000001, None);
    }
  }

  lemma DefaultSettings(edges: set<Edge>)
    ensures DefaultRank(edges) == Rank(NetworkOf(edges), 0.85, 100, 0.00000001, None)
    ensures edges == {} ==> Rank(NetworkOf(edges), 0.85, 100, 0.00000001, None) == map[]
  {
    if edges == {} {
      assert NetworkOf(edges).nodes == {};
    } else {
      hide Rank;
    }
  }

  lemma HasNodes(edges: set<Edge>)
    requires edges != {}
    ensures NetworkOf(edges).Valid() && NetworkOf(edges).nodes != {}
  {
    var e :| e in edges;
    NetworkOfEdges(Nodes(edges), edges);
    assert e.src in NetworkOf(edges).nodes;
  }
}
