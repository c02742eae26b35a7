/**
 * PageRank over the relation graph (libs/graph/centrality.py), with real scores.
 *
 * The loops push shares along outgoing references; the specification pulls them along the transition kernel
 * of the random surfer. Loops visit nodes in an arbitrary order: over the reals the order cannot matter, so
 * the listing order chosen by the source is one instance.
 */
module Centrality {
  import opened Options
  import opened Digraphs
  import opened Sums
  import opened Chains
  import opened PowerIteration

  type Vec = map<Node, real>

  const DEFAULT_DAMPING := 0.85
  const DEFAULT_ITERATIONS := 100
  const DEFAULT_TOLERANCE := 0.00000001

  /** The part of a graph that centrality reads: its nodes and the neighbors of each. */
  datatype Network = Network(nodes: set<Node>, fwd: map<Node, set<Node>>) {
    ghost predicate Valid() {
      fwd.Keys == nodes && forall u :: u in nodes ==> fwd[u] <= nodes
    }
  }

  function At(v: Vec, x: Node): real {
    if x in v then v[x] else 0.0
  }

  function Scoring(v: Vec): Scores<Node> {
    x => At(v, x)
  }

  function NonNegativePart(x: real): real {
    if x > 0.0 then x else 0.0
  }

  function Neighbors(net: Network, u: Node): set<Node> {
    if u in net.fwd then net.fwd[u] else {}
  }

  /* ----- the chain a network stands for ----- */

  function Kernel(net: Network, t: Vec): (Node, Node) -> real {
    (u, v) =>
      if Neighbors(net, u) == {} then At(t, v)
      else if v in Neighbors(net, u) then 1.0 / |Neighbors(net, u)| as real
      else 0.0
  }

  function Surfer(net: Network, t: Vec, d: real): Chain<Node> {
    Chain(net.nodes, Kernel(net, t), Scoring(t), d)
  }

  /** Weight that personalization gives a node; absent keys and negative weights count nothing. */
  function Bias(personalization: Option<Vec>): Scores<Node> {
    v => if personalization.Some? then NonNegativePart(At(personalization.value, v)) else 0.0
  }

  ghost function TeleportVec(net: Network, personalization: Option<Vec>): Vec
    requires net.nodes != {}
  {
    var weight := Sum(net.nodes, Bias(personalization));
    if weight > 0.0 then map v | v in net.nodes :: Bias(personalization)(v) / weight
    else UniformVec(net)
  }

  function UniformVec(net: Network): Vec
    requires net.nodes != {}
  {
    map v | v in net.nodes :: 1.0 / |net.nodes| as real
  }

  ghost function NextVec(net: Network, t: Vec, d: real, s: Vec): Vec {
    map v | v in net.nodes :: Surfer(net, t, d).Next(Scoring(s))(v)
  }

  ghost function RunVec(net: Network, t: Vec, d: real, s: Vec, tolerance: real, fuel: nat): Vec
    decreases fuel
  {
    if fuel == 0 then s
    else
      var next := NextVec(net, t, d, s);
      if Distance(net.nodes, Scoring(next), Scoring(s)) < tolerance then next
      else RunVec(net, t, d, next, tolerance, fuel - 1)
  }

  ghost function Normalized(nodes: set<Node>, s: Vec): Vec {
    var total := Sum(nodes, Scoring(s));
    if total > 0.0 then map v | v in s :: s[v] / total else s
  }

  /** What PageRank computes, as a function of the network alone. */
  ghost function Rank(net: Network, damping: real, iterations: int, tolerance: real, personalization: Option<Vec>): Vec {
    if net.nodes == {} then map[]
    else
      var fuel := if iterations < 0 then 0 else iterations;
      Normalized(net.nodes,
                 RunVec(net, TeleportVec(net, personalization), damping, UniformVec(net), tolerance, fuel))
  }

  /* ----- the loops ----- */

  function DanglingShare(net: Network, s: Vec): Scores<Node> {
    u => if Neighbors(net, u) == {} then At(s, u) else 0.0
  }

  /** What a node with the given score and out-degree gives to each neighbor. */
  function Share(d: real, score: real, degree: nat): real
    requires degree != 0
  {
    d * score / degree as real
  }

  /** What u gives to each of its neighbors. */
  function Gift(net: Network, d: real, s: Vec, u: Node): real {
    if Neighbors(net, u) == {} then 0.0 else Share(d, At(s, u), |Neighbors(net, u)|)
  }

  function PushTerm(net: Network, d: real, s: Vec, u: Node, v: Node): real {
    if v in Neighbors(net, u) then Gift(net, d, s, u) else 0.0
  }

  function PushTo(net: Network, d: real, s: Vec, v: Node): Scores<Node> {
    u => PushTerm(net, d, s, u, v)
  }

  method DanglingMass(net: Network, scores: Vec) returns (sum: real)
    requires net.Valid() && scores.Keys == net.nodes
    ensures sum == Sum(net.nodes, DanglingShare(net, scores))
  {
    sum := 0.0;
    var todo := net.nodes;
    while todo != {}
      invariant todo <= net.nodes
      invariant sum + Sum(todo, DanglingShare(net, scores)) == Sum(net.nodes, DanglingShare(net, scores))
      decreases todo
    {
      var node :| node in todo;
      SumSplit(todo, node, DanglingShare(net, scores));
      if |net.fwd[node]| == 0 {
        sum := sum + scores[node];
      }
      todo := todo - {node};
    }
  }

  /** Adds share to every target. */
  method AddShare(share: real, targets: set<Node>, acc: Vec) returns (r: Vec)
    requires targets <= acc.Keys
    ensures r.Keys == acc.Keys
    ensures forall v :: v in r ==> r[v] == if v in targets then acc[v] + share else acc[v]
  {
    r := acc;
    var todo := targets;
    while todo != {}
      invariant todo <= targets
      invariant r.Keys == acc.Keys
      invariant forall v :: v in r ==> r[v] == if v in targets - todo then acc[v] + share else acc[v]
      decreases todo
    {
      var nxt :| nxt in todo;
      r := r[nxt := At(r, nxt) + share];
      todo := todo - {nxt};
    }
  }

  /** What v receives from the given sources. */
  ghost function Pushed(net: Network, d: real, s: Vec, v: Node, sources: set<Node>): real {
    Sum(sources, PushTo(net, d, s, v))
  }

  method PushShares(net: Network, d: real, scores: Vec) returns (r: Vec)
    requires net.Valid() && scores.Keys == net.nodes
    ensures r.Keys == net.nodes
    ensures forall v :: v in net.nodes ==> r[v] == Pushed(net, d, scores, v, net.nodes)
  {
    hide Sum, Pushed, Gift;
    r := map v | v in net.nodes :: 0.0;
    var todo := net.nodes;
    forall v {
      PushedEmpty(net, d, scores, v);
    }
    while todo != {}
      invariant todo <= net.nodes
      invariant r.Keys == net.nodes
      invariant forall v :: v in net.nodes ==>
        r[v] + Pushed(net, d, scores, v, todo) == Pushed(net, d, scores, v, net.nodes)
      decreases todo
    {
      var node :| node in todo;
      ghost var before := r;
      if net.fwd[node] != {} {
        r := AddShare(Gift(net, d, scores, node), net.fwd[node], r);
      }
      forall v | v in net.nodes
        ensures r[v] + Pushed(net, d, scores, v, todo - {node}) == before[v] + Pushed(net, d, scores, v, todo)
      {
        PushedSplit(net, d, scores, v, todo, node);
      }
      todo := todo - {node};
    }
  }

  lemma PushedEmpty(net: Network, d: real, s: Vec, v: Node)
    ensures Pushed(net, d, s, v, {}) == 0.0
  {
  }

  lemma PushedSplit(net: Network, d: real, s: Vec, v: Node, sources: set<Node>, u: Node)
    requires u in sources
    ensures Pushed(net, d, s, v, sources) == PushTerm(net, d, s, u, v) + Pushed(net, d, s, v, sources - {u})
  {
    SumSplit(sources, u, PushTo(net, d, s, v));
  }

  lemma ArrivingTermsArePushed(net: Network, t: Vec, d: real, s: Vec, v: Node)
    ensures forall u :: u in net.nodes ==>
      d * Column(Flow(Kernel(net, t), Scoring(s)), v)(u)
      == (d * At(t, v)) * DanglingShare(net, s)(u) + PushTo(net, d, s, v)(u)
  {
    forall u | u in net.nodes {
      SharePushedEqualsPulled(net, t, d, s, u, v);
    }
  }

  lemma ArrivingIsPushed(net: Network, t: Vec, d: real, s: Vec, v: Node)
    ensures d * Arriving(net.nodes, Kernel(net, t), Scoring(s), v)
         == (d * At(t, v)) * Sum(net.nodes, DanglingShare(net, s)) + Pushed(net, d, s, v, net.nodes)
  {
    hide Sum, Kernel, DanglingShare, PushTerm, Gift;
    ArrivingTermsArePushed(net, t, d, s, v);
    SumCombination(net.nodes, d, Column(Flow(Kernel(net, t), Scoring(s)), v),
                   d * At(t, v), DanglingShare(net, s), PushTo(net, d, s, v));
  }

  /** Teleport, dangling and pushed parts together are exactly one step of the chain. */
  lemma PushedEqualsPulled(net: Network, t: Vec, d: real, s: Vec, v: Node)
    ensures (1.0 - d) * At(t, v) + d * Sum(net.nodes, DanglingShare(net, s)) * At(t, v)
          + Pushed(net, d, s, v, net.nodes)
         == Surfer(net, t, d).Next(Scoring(s))(v)
  {
    hide Sum;
    ArrivingIsPushed(net, t, d, s, v);
    RotateFactors(d, At(t, v), Sum(net.nodes, DanglingShare(net, s)));
  }

  lemma RotateFactors(a: real, b: real, c: real)
    ensures (a * b) * c == a * c * b
  {
  }

  /** The two forms of one term: degree 0 stands for a dangling source. */
  lemma TermPushedEqualsPulled(d: real, score: real, degree: nat, linked: bool, t: real)
    requires linked ==> degree != 0
    ensures d * (score * (if degree == 0 then t else if linked then 1.0 / degree as real else 0.0))
         == (d * t) * (if degree == 0 then score else 0.0) + if linked then Share(d, score, degree) else 0.0
  {
    if degree == 0 {
      assert d * (score * t) == (d * t) * score;
    } else if linked {
      assert d * (score * (1.0 / degree as real)) == d * score / degree as real;
    }
  }

  lemma SharePushedEqualsPulled(net: Network, t: Vec, d: real, s: Vec, u: Node, v: Node)
    ensures d * Column(Flow(Kernel(net, t), Scoring(s)), v)(u)
         == (d * At(t, v)) * DanglingShare(net, s)(u) + PushTo(net, d, s, v)(u)
  {
    TermPushedEqualsPulled(d, At(s, u), |Neighbors(net, u)|, v in Neighbors(net, u), At(t, v));
  }

  /** Teleport part, dangling part and pushed part of one new score. */
  function Blended(d: real, t: real, dangling: real, pushed: real): real {
    (1.0 - d) * t + d * dangling * t + pushed
  }

  lemma VecsAreEqual(a: Vec, b: Vec)
    requires a.Keys == b.Keys
    requires forall v :: v in a.Keys ==> a[v] == b[v]
    ensures a == b
  {
  }

  lemma NextVecKeys(net: Network, t: Vec, d: real, s: Vec)
    ensures NextVec(net, t, d, s).Keys == net.nodes
  {
  }

  lemma BlendIsNext(net: Network, t: Vec, d: real, s: Vec, v: Node)
    requires v in net.nodes && v in t
    ensures NextVec(net, t, d, s).Keys == net.nodes
    ensures Blended(d, t[v], Sum(net.nodes, DanglingShare(net, s)), Pushed(net, d, s, v, net.nodes))
         == NextVec(net, t, d, s)[v]
  {
    hide Sum;
    PushedEqualsPulled(net, t, d, s, v);
  }

  /** Blends the parts into the next scores, in place, and accumulates the change. */
  method Blend(net: Network, t: Vec, d: real, scores: Vec, dangling: real, pushed: Vec)
    returns (next: Vec, delta: real)
    requires net.Valid() && scores.Keys == net.nodes == t.Keys == pushed.Keys
    requires dangling == Sum(net.nodes, DanglingShare(net, scores))
    requires forall v :: v in net.nodes ==> pushed[v] == Pushed(net, d, scores, v, net.nodes)
    ensures next == NextVec(net, t, d, scores)
    ensures delta == Distance(net.nodes, Scoring(next), Scoring(scores))
  {
    hide Sum, NextVec, Blended, Pushed, DanglingShare;
    ghost var goal := NextVec(net, t, d, scores);
    ghost var gap := Difference(Scoring(goal), Scoring(scores));
    next, delta := pushed, 0.0;
    var todo := net.nodes;
    SumEmpty(gap);
    NextVecKeys(net, t, d, scores);
    while todo != {}
      invariant todo <= net.nodes
      invariant next.Keys == net.nodes
      invariant forall v :: v in net.nodes ==> next[v] == if v in todo then pushed[v] else goal[v]
      invariant delta + Sum(todo, gap) == Sum(net.nodes, gap)
      decreases todo
    {
      var node :| node in todo;
      var val := Blended(d, t[node], dangling, next[node]);
      assert val == goal[node] by {
        BlendIsNext(net, t, d, scores, node);
      }
      assert Abs(val - scores[node]) == gap(node);
      SumSplit(todo, node, gap);
      delta := delta + Abs(val - scores[node]);
      next := next[node := val];
      todo := todo - {node};
    }
    VecsAreEqual(next, goal);
  }

  /** The teleport vector: biased when some node of the network has positive weight, uniform otherwise. */
  method Teleport(net: Network, personalization: Option<Vec>) returns (t: Vec)
    requires net.nodes != {}
    ensures t == TeleportVec(net, personalization)
    ensures t.Keys == net.nodes
  {
    var weight := 0.0;
    if personalization.Some? {
      var todo := net.nodes;
      while todo != {}
        invariant todo <= net.nodes
        invariant weight + Sum(todo, Bias(personalization)) == Sum(net.nodes, Bias(personalization))
        decreases todo
      {
        var node :| node in todo;
        SumSplit(todo, node, Bias(personalization));
        weight := weight + Bias(personalization)(node);
        todo := todo - {node};
      }
    } else {
      SumConstant(net.nodes, 0.0, Bias(personalization));
    }
    if weight > 0.0 {
      t := map v | v in net.nodes :: Bias(personalization)(v) / weight;
    } else {
      t := UniformVec(net);
    }
  }

  /** Corrects drift by dividing by the total; a no-op when the total is not positive. */
  method Renormalize(nodes: set<Node>, s: Vec) returns (r: Vec)
    requires s.Keys == nodes
    ensures r == Normalized(nodes, s)
  {
    var total := 0.0;
    var todo := nodes;
    while todo != {}
      invariant todo <= nodes
      invariant total + Sum(todo, Scoring(s)) == Sum(nodes, Scoring(s))
      decreases todo
    {
      var node :| node in todo;
      SumSplit(todo, node, Scoring(s));
      total := total + s[node];
      todo := todo - {node};
    }
    r := if total > 0.0 then map v | v in s :: s[v] / total else s;
  }

  lemma RunVecUnfolds(net: Network, t: Vec, d: real, s: Vec, tolerance: real, fuel: nat)
    ensures RunVec(net, t, d, s, tolerance, fuel) ==
            if fuel == 0 then s
            else if Distance(net.nodes, Scoring(NextVec(net, t, d, s)), Scoring(s)) < tolerance then NextVec(net, t, d, s)
            else RunVec(net, t, d, NextVec(net, t, d, s), tolerance, fuel - 1)
  {
  }

  lemma RankUnfolds(net: Network, damping: real, iterations: int, tolerance: real, personalization: Option<Vec>)
    ensures Rank(net, damping, iterations, tolerance, personalization) ==
            if net.nodes == {} then map[]
            else Normalized(net.nodes, RunVec(net, TeleportVec(net, personalization), damping, UniformVec(net), tolerance,
                                              if iterations < 0 then 0 else iterations))
  {
  }

  method PageRank(net: Network, damping: real, iterations: int, tolerance: real, personalization: Option<Vec>)
    returns (result: Vec)
    requires net.Valid()
    ensures result == Rank(net, damping, iterations, tolerance, personalization)
  {
    hide Sum, NextVec, Pushed, DanglingShare, TeleportVec, Normalized, RunVec, Distance, Rank;
    if net.nodes == {} {
      RankUnfolds(net, damping, iterations, tolerance, personalization);
      return map[];
    }
    var t := Teleport(net, personalization);
    var scores := UniformVec(net);
    var left := if iterations < 0 then 0 else iterations;
    ghost var goal := RunVec(net, t, damping, scores, tolerance, left);
    while left > 0
      invariant 0 <= left
      invariant scores.Keys == net.nodes
      invariant goal == RunVec(net, t, damping, scores, tolerance, left)
    {
      var dangling := DanglingMass(net, scores);
      var pushed := PushShares(net, damping, scores);
      var next, delta := Blend(net, t, damping, scores, dangling, pushed);
      NextVecKeys(net, t, damping, scores);
      RunVecUnfolds(net, t, damping, scores, tolerance, left);
      scores := next;
      left := left - 1;
      if delta < tolerance {
        break;
      }
    }
    assert scores == goal by {
      if left == 0 {
        RunVecUnfolds(net, t, damping, scores, tolerance, 0);
      }
    }
    result := Renormalize(net.nodes, scores);
    RankUnfolds(net, damping, iterations, tolerance, personalization);
  }
}
