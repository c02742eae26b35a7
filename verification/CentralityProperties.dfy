/** What the PageRank scores are: a distribution, an iterate of the surfer chain, close to its fixed point. */
module CentralityProperties {
  import opened Options
  import opened Digraphs
  import opened FixedPoints
  import opened Sums
  import opened Chains
  import opened PowerIteration
  import opened Centrality

  lemma KernelRowIsDistribution(net: Network, t: Vec, u: Node)
    requires net.Valid() && u in net.nodes
    requires Distribution(net.nodes, Scoring(t))
    ensures Distribution(net.nodes, Row(Kernel(net, t), u))
  {
    var out, row := Neighbors(net, u), Row(Kernel(net, t), u);
    if out == {} {
      SumCongruence(net.nodes, row, Scoring(t));
    } else {
      hide Sum;
      var p := 1.0 / |out| as real;
      assert p * |out| as real == 1.0 && 0.0 <= p;
      assert forall v :: v in out ==> row(v) == p;
      assert forall v :: v !in out ==> row(v) == 0.0;
      SumSupport(net.nodes, out, row);
      SumConstant(out, p, row);
    }
  }

  lemma KernelIsStochastic(net: Network, t: Vec)
    requires net.Valid()
    requires Distribution(net.nodes, Scoring(t))
    ensures Stochastic(net.nodes, Kernel(net, t))
  {
    forall u | u in net.nodes
      ensures Distribution(net.nodes, Row(Kernel(net, t), u))
    {
      KernelRowIsDistribution(net, t, u);
    }
  }

  lemma UniformIsDistribution(net: Network)
    requires net.nodes != {}
    ensures Distribution(net.nodes, Scoring(UniformVec(net)))
  {
    var p := 1.0 / |net.nodes| as real;
    assert p * |net.nodes| as real == 1.0;
    SumConstant(net.nodes, p, Scoring(UniformVec(net)));
  }

  lemma NormalizedWeightsAreDistribution(nodes: set<Node>, f: Scores<Node>, g: Scores<Node>)
    requires forall v :: v in nodes ==> 0.0 <= f(v)
    requires 0.0 < Sum(nodes, f)
    requires forall v :: v in nodes ==> g(v) == f(v) / Sum(nodes, f)
    ensures Distribution(nodes, g)
  {
    hide Sum;
    var total := Sum(nodes, f);
    forall v | v in nodes
      ensures g(v) == (1.0 / total) * f(v) && 0.0 <= g(v)
    {
      QuotientIsProduct(f(v), total);
    }
    SumScale(nodes, 1.0 / total, f, g);
    QuotientIsProduct(total, total);
  }

  lemma QuotientIsProduct(x: real, y: real)
    requires 0.0 < y && 0.0 <= x
    ensures x / y == (1.0 / y) * x
    ensures 0.0 <= x / y
    ensures y / y == 1.0
  {
  }

  /** Whatever personalization says, teleporting lands somewhere with probability one. */
  lemma TeleportIsDistribution(net: Network, personalization: Option<Vec>)
    requires net.nodes != {}
    ensures Distribution(net.nodes, Scoring(TeleportVec(net, personalization)))
    ensures TeleportVec(net, personalization).Keys == net.nodes
  {
    if Sum(net.nodes, Bias(personalization)) > 0.0 {
      NormalizedWeightsAreDistribution(net.nodes, Bias(personalization), Scoring(TeleportVec(net, personalization)));
    } else {
      UniformIsDistribution(net);
    }
  }

  /** A step reads its argument only at the states. */
  lemma NextReadsOnlyStates<T>(c: Chain<T>, f: Scores<T>, g: Scores<T>, v: T)
    requires forall u :: u in c.states ==> f(u) == g(u)
    ensures c.Next(f)(v) == c.Next(g)(v)
  {
    SumCongruence(c.states, Column(Flow(c.kernel, f), v), Column(Flow(c.kernel, g), v));
  }

  ghost predicate Agrees(nodes: set<Node>, s: Vec, f: Scores<Node>) {
    s.Keys == nodes && forall v :: v in nodes ==> s[v] == f(v)
  }

  lemma NextVecAgrees(net: Network, t: Vec, d: real, s: Vec, f: Scores<Node>)
    requires Agrees(net.nodes, s, f)
    ensures Agrees(net.nodes, NextVec(net, t, d, s), Surfer(net, t, d).Next(f))
  {
    var c := Surfer(net, t, d);
    assert forall u :: u in c.states ==> Scoring(s)(u) == f(u);
    forall v | v in net.nodes
      ensures NextVec(net, t, d, s)[v] == c.Next(f)(v)
    {
      NextReadsOnlyStates(c, Scoring(s), f, v);
    }
  }

  lemma AgreeingDistance(nodes: set<Node>, a: Vec, f: Scores<Node>, b: Vec, g: Scores<Node>)
    requires Agrees(nodes, a, f) && Agrees(nodes, b, g)
    ensures Distance(nodes, Scoring(a), Scoring(b)) == Distance(nodes, f, g)
  {
    DistanceCongruence(nodes, Scoring(a), Scoring(b), f, g);
  }

  /** The dictionary-based iteration is the iteration of the chain. */
  lemma {:induction false} RunVecAgrees(net: Network, t: Vec, d: real, s: Vec, tolerance: real, fuel: nat, f: Scores<Node>)
    requires Agrees(net.nodes, s, f)
    ensures Agrees(net.nodes, RunVec(net, t, d, s, tolerance, fuel), Surfer(net, t, d).Run(f, tolerance, fuel))
    decreases fuel
  {
    hide Sum, NextVec, Step, Distance, Agrees;
    if fuel != 0 {
      var next, f' := NextVec(net, t, d, s), Surfer(net, t, d).Next(f);
      NextVecAgrees(net, t, d, s, f);
      AgreeingDistance(net.nodes, next, f', s, f);
      if Distance(net.nodes, Scoring(next), Scoring(s)) >= tolerance {
        RunVecAgrees(net, t, d, next, tolerance, fuel - 1, f');
      }
    }
  }

  lemma AgreeingIsDistribution(nodes: set<Node>, s: Vec, f: Scores<Node>)
    requires Agrees(nodes, s, f) && Distribution(nodes, f)
    ensures Distribution(nodes, Scoring(s))
  {
    SumCongruence(nodes, Scoring(s), f);
  }

  lemma NormalizedIsIdentity(nodes: set<Node>, s: Vec)
    requires s.Keys == nodes && Distribution(nodes, Scoring(s))
    ensures Normalized(nodes, s) == s
  {
  }

  /** The chain PageRank iterates, and the scores it starts from. */
  ghost function RankChain(net: Network, damping: real, personalization: Option<Vec>): Chain<Node>
    requires net.nodes != {}
  {
    Surfer(net, TeleportVec(net, personalization), damping)
  }

  function Start(net: Network): Scores<Node>
    requires net.nodes != {}
  {
    Scoring(UniformVec(net))
  }

  function Fuel(iterations: int): nat {
    if iterations < 0 then 0 else iterations
  }

  lemma RankChainIsValid(net: Network, damping: real, personalization: Option<Vec>)
    requires net.Valid() && net.nodes != {} && 0.0 <= damping <= 1.0
    ensures RankChain(net, damping, personalization).Valid()
  {
    TeleportIsDistribution(net, personalization);
    KernelIsStochastic(net, TeleportVec(net, personalization));
  }

  lemma StartAgrees(net: Network)
    requires net.nodes != {}
    ensures Agrees(net.nodes, UniformVec(net), Start(net))
  {
  }

  lemma AgreesOnKeys(nodes: set<Node>, s: Vec, f: Scores<Node>)
    requires Agrees(nodes, s, f)
    ensures s.Keys == nodes && forall v :: v in nodes ==> Scoring(s)(v) == f(v)
  {
  }

  /**
   * For every network, damping in [0, 1] and personalization: the scores are the iterate of the chain at which
   * the loop stops, they form a probability distribution, and the renormalization that produced them changed nothing.
   */
  lemma RankIsIterate(net: Network, damping: real, iterations: int, tolerance: real, personalization: Option<Vec>)
    requires net.Valid() && net.nodes != {} && 0.0 <= damping <= 1.0
    ensures var c := RankChain(net, damping, personalization);
            var k := c.Steps(Start(net), tolerance, Fuel(iterations));
            var r := Rank(net, damping, iterations, tolerance, personalization);
            && r == RunVec(net, TeleportVec(net, personalization), damping, UniformVec(net), tolerance, Fuel(iterations))
            && Agrees(net.nodes, r, c.After(Start(net), k))
            && Distribution(net.nodes, Scoring(r))
  {
    hide Sum, Step, TeleportVec, UniformVec, Normalized, RunVec, Distance, Distribution, Stochastic, Rank, Agrees;
    var c := RankChain(net, damping, personalization);
    var k := c.Steps(Start(net), tolerance, Fuel(iterations));
    var t := TeleportVec(net, personalization);
    var run := RunVec(net, t, damping, UniformVec(net), tolerance, Fuel(iterations));
    RankUnfolds(net, damping, iterations, tolerance, personalization);
    StartAgrees(net);
    RankChainIsValid(net, damping, personalization);
    UniformIsDistribution(net);
    RunVecAgrees(net, t, damping, UniformVec(net), tolerance, Fuel(iterations), Start(net));
    RunStopsAtFirstSmallChange(c, Start(net), tolerance, Fuel(iterations));
    AfterIsDistribution(c, Start(net), k);
    AgreeingIsDistribution(net.nodes, run, c.After(Start(net), k));
    AgreesOnKeys(net.nodes, run, c.After(Start(net), k));
    NormalizedIsIdentity(net.nodes, run);
  }

  /** After at least one iteration no node scores below its teleport share. */
  lemma RankKeepsTeleportShare(net: Network, damping: real, iterations: int, tolerance: real,
                               personalization: Option<Vec>, v: Node)
    requires net.Valid() && v in net.nodes && 0.0 <= damping <= 1.0 && 1 <= iterations
    ensures (1.0 - damping) * At(TeleportVec(net, personalization), v)
         <= At(Rank(net, damping, iterations, tolerance, personalization), v)
  {
    hide Sum, NextVec, Rank, Step, TeleportVec, RunVec, Distance, Stochastic, Distribution;
    var c := RankChain(net, damping, personalization);
    var k := c.Steps(Start(net), tolerance, Fuel(iterations));
    RankIsIterate(net, damping, iterations, tolerance, personalization);
    RankChainIsValid(net, damping, personalization);
    UniformIsDistribution(net);
    SomeStep(c, Start(net), tolerance, Fuel(iterations));
    SharesOfIterate(c, Start(net), k, v);
  }

  lemma SomeStep(c: Chain<Node>, f: Scores<Node>, tolerance: real, fuel: nat)
    requires 1 <= fuel
    ensures 1 <= c.Steps(f, tolerance, fuel)
  {
  }

  lemma SharesOfIterate(c: Chain<Node>, f: Scores<Node>, k: nat, v: Node)
    requires c.Valid() && Distribution(c.states, f) && 1 <= k && v in c.states
    ensures (1.0 - c.damping) * c.teleport(v) <= c.After(f, k)(v)
  {
    AfterIsDistribution(c, f, k);
  }

  /**
   * When the loop leaves by its tolerance exit, the scores are within d / (1 - d) * tolerance of every fixed
   * point of the chain; when it uses up its iterations, within twice the power of the damping of any fixed
   * distribution.
   */
  lemma RankIsNearFixedPoint(net: Network, damping: real, iterations: int, tolerance: real,
                             personalization: Option<Vec>, p: Scores<Node>)
    requires net.Valid() && net.nodes != {} && 0.0 <= damping <= 1.0
    requires RankChain(net, damping, personalization).Fixed(p)
    ensures var c := RankChain(net, damping, personalization);
            var k := c.Steps(Start(net), tolerance, Fuel(iterations));
            var r := Scoring(Rank(net, damping, iterations, tolerance, personalization));
            && (k < Fuel(iterations) ==> (1.0 - damping) * Distance(net.nodes, r, p) <= damping * tolerance)
            && (Distribution(net.nodes, p) ==> Distance(net.nodes, r, p) <= 2.0 * Power(damping, k))
  {
    hide Sum, NextVec, Rank, Step, TeleportVec, UniformVec, RunVec, Distance, Distribution, Stochastic, Agrees, Power;
    var c := RankChain(net, damping, personalization);
    var k := c.Steps(Start(net), tolerance, Fuel(iterations));
    var r := Scoring(Rank(net, damping, iterations, tolerance, personalization));
    RankIsIterate(net, damping, iterations, tolerance, personalization);
    RankChainIsValid(net, damping, personalization);
    RunStopsAtFirstSmallChange(c, Start(net), tolerance, Fuel(iterations));
    AgreesOnKeys(net.nodes, Rank(net, damping, iterations, tolerance, personalization), c.After(Start(net), k));
    DistanceCongruence(net.nodes, r, p, c.After(Start(net), k), p);
    if k < Fuel(iterations) {
      ToleranceExitIsNearFixedPoint(c, Start(net), p, tolerance, Fuel(iterations));
    }
    if Distribution(net.nodes, p) {
      UniformIsDistribution(net);
      IteratesApproachFixedPoint(c, Start(net), p, k);
    }
  }

  /**
   * With damping below one there is one vector of true scores, the only fixed point of the chain. It depends on the
   * network, the damping and the personalization alone, and whatever the iteration limit and the tolerance the
   * returned scores are within twice the power of the damping of it, and within d / (1 - d) * tolerance of it when
   * the loop leaves by its tolerance exit.
   */
  lemma TrueScoresExist(net: Network, damping: real, personalization: Option<Vec>) returns (p: Scores<Node>)
    requires net.Valid() && net.nodes != {} && 0.0 <= damping < 1.0
    ensures RankChain(net, damping, personalization).Fixed(p) && Distribution(net.nodes, p)
    ensures forall q: Scores<Node> :: RankChain(net, damping, personalization).Fixed(q) ==>
              forall v :: v in net.nodes ==> q(v) == p(v)
    ensures forall iterations: int, tolerance: real ::
              NearTrueScores(net, damping, iterations, tolerance, personalization, p)
  {
    hide Distribution, Rank, Distance, Step, TeleportVec, Stochastic, Sum, Power;
    var c := RankChain(net, damping, personalization);
    RankChainIsValid(net, damping, personalization);
    p := FixedDistributionExists(c);
    forall q: Scores<Node> | c.Fixed(q)
      ensures forall v :: v in net.nodes ==> q(v) == p(v)
    {
      FixedPointIsUnique(c, q, p);
    }
    forall iterations: int, tolerance: real
      ensures NearTrueScores(net, damping, iterations, tolerance, personalization, p)
    {
      RankIsNearFixedPoint(net, damping, iterations, tolerance, personalization, p);
    }
  }

  ghost predicate NearTrueScores(net: Network, damping: real, iterations: int, tolerance: real,
                                 personalization: Option<Vec>, p: Scores<Node>)
    requires net.nodes != {}
  {
    var c := RankChain(net, damping, personalization);
    var k := c.Steps(Start(net), tolerance, Fuel(iterations));
    var r := Scoring(Rank(net, damping, iterations, tolerance, personalization));
    && Distance(net.nodes, r, p) <= 2.0 * Power(damping, k)
    && (k < Fuel(iterations) ==> (1.0 - damping) * Distance(net.nodes, r, p) <= damping * tolerance)
  }
}
