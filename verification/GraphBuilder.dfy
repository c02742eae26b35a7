/**
 * The relation graph (libs/graph/builder.py): forward and reverse adjacency kept as converse relations,
 * depth-bounded expansion, and PageRank cached until the next relation is added.
 */
module GraphBuilder {
  import opened Options
  import opened Digraphs
  import opened Entities
  import opened Reachability
  import opened Centrality

  /** Adjacency that the forward and the reverse map must hold for a given edge set. */
  function ForwardMap(edges: set<Edge>): Adjacency {
    map u | u in (set e | e in edges :: e.src) :: Out(edges, u)
  }

  function BackwardMap(edges: set<Edge>): Adjacency {
    map v | v in (set e | e in edges :: e.dst) :: In(edges, v)
  }

  /** What centrality reads of a graph with these edges. */
  function NetworkOf(edges: set<Edge>): Network {
    Network(Nodes(edges), map u | u in Nodes(edges) :: Out(edges, u))
  }

  ghost function DefaultRank(edges: set<Edge>): Vec {
    Rank(NetworkOf(edges), DEFAULT_DAMPING, DEFAULT_ITERATIONS, DEFAULT_TOLERANCE, None)
  }

  function Depth(depth: int): nat {
    if depth < 0 then 0 else depth
  }

  /** n is at most depth edges away from seed, following edges forward or backward. */
  ghost predicate Reaches(edges: set<Edge>, reverse: bool, seed: Node, n: Node, depth: int) {
    PathWithin(if reverse then BackwardMap(edges) else ForwardMap(edges), seed, n, Depth(depth))
  }

  lemma MapsAreConverse(edges: set<Edge>)
    ensures Reachability.Converse(ForwardMap(edges), BackwardMap(edges))
  {
    forall m, n
      ensures n in Succ(ForwardMap(edges), m) <==> Edge(m, n) in edges
      ensures m in Succ(BackwardMap(edges), n) <==> Edge(m, n) in edges
    {
    }
  }

  /** Expansion duality: n is reached from s within a depth exactly if s is reached from n going backwards. */
  lemma ExpansionDuality(edges: set<Edge>, s: Node, n: Node, depth: int)
    ensures Reaches(edges, false, s, n, depth) <==> Reaches(edges, true, n, s, depth)
  {
    MapsAreConverse(edges);
    ReachDuality(ForwardMap(edges), BackwardMap(edges), s, n, Depth(depth));
  }

  lemma AddForward(edges: set<Edge>, e: Edge)
    ensures ForwardMap(edges + {e})
         == ForwardMap(edges)[e.src := Succ(ForwardMap(edges), e.src) + {e.dst}]
  {
    var before, after := ForwardMap(edges), ForwardMap(edges + {e});
    forall u | u in after
      ensures after[u] == if u == e.src then Succ(before, u) + {e.dst} else before[u]
    {
      assert Out(edges + {e}, u) == Out(edges, u) + if u == e.src then {e.dst} else {};
    }
  }

  lemma AddBackward(edges: set<Edge>, e: Edge)
    ensures BackwardMap(edges + {e})
         == BackwardMap(edges)[e.dst := Succ(BackwardMap(edges), e.dst) + {e.src}]
  {
    var before, after := BackwardMap(edges), BackwardMap(edges + {e});
    forall v | v in after
      ensures after[v] == if v == e.dst then Succ(before, v) + {e.src} else before[v]
    {
      assert In(edges + {e}, v) == In(edges, v) + if v == e.dst then {e.src} else {};
    }
  }

  class Graph {
    var fwd: Adjacency
    var rev: Adjacency
    var relationCount: nat
    var pagerankCache: Option<Vec>
    ghost var edges: set<Edge>

    ghost predicate Valid()
      reads this
    {
      && fwd == ForwardMap(edges)
      && rev == BackwardMap(edges)
      && (pagerankCache.Some? ==> pagerankCache.value == DefaultRank(edges))
    }

    constructor ()
      ensures Valid() && edges == {} && relationCount == 0
    {
      fwd, rev, relationCount, pagerankCache := map[], map[], 0, None;
      edges := {};
    }

    method AddRelation(rel: Relation)
      requires Valid()
      modifies this
      ensures Valid() && edges == old(edges) + {EdgeOf(rel)}
      ensures relationCount == old(relationCount) + 1 && pagerankCache == None
    {
      AddForward(edges, EdgeOf(rel));
      AddBackward(edges, EdgeOf(rel));
      fwd := fwd[rel.srcRef := Succ(fwd, rel.srcRef) + {rel.dstRef}];
      rev := rev[rel.dstRef := Succ(rev, rel.dstRef) + {rel.srcRef}];
      relationCount := relationCount + 1;
      pagerankCache := None;
      edges := edges + {EdgeOf(rel)};
    }

    method AddRelations(rels: seq<Relation>)
      requires Valid()
      modifies this
      ensures Valid() && edges == old(edges) + EdgesOf(rels)
      ensures relationCount == old(relationCount) + |rels|
      ensures rels == [] ==> pagerankCache == old(pagerankCache)
    {
      for i := 0 to |rels|
        invariant Valid() && edges == old(edges) + EdgesOf(rels[..i])
        invariant relationCount == old(relationCount) + i
        invariant i == 0 ==> pagerankCache == old(pagerankCache)
      {
        assert rels[..i + 1] == rels[..i] + [rels[i]];
        AddRelation(rels[i]);
      }
      assert rels[..|rels|] == rels;
    }

    function Neighbors(node: Node): (successors: set<Node>)
      requires Valid()
      reads this
      ensures successors == Out(edges, node)
    {
      Succ(fwd, node)
    }

    function ReverseNeighbors(node: Node): (predecessors: set<Node>)
      requires Valid()
      reads this
      ensures predecessors == In(edges, node)
    {
      Succ(rev, node)
    }

    predicate HasNode(name: Node)
      reads this
      requires Valid()
      ensures HasNode(name) <==> name in Digraphs.Nodes(edges)
    {
      name in fwd || name in rev
    }

    method Nodes() returns (result: set<Node>)
      requires Valid()
      ensures result == Digraphs.Nodes(edges)
    {
      result := {};
      var todo := fwd.Keys;
      while todo != {}
        invariant todo <= fwd.Keys
        invariant fwd.Keys - todo <= result <= Digraphs.Nodes(edges)
        decreases todo
      {
        var src :| src in todo;
        result := result + {src} + fwd[src];
        todo := todo - {src};
      }
      result := result + rev.Keys;
    }

    /** Breadth-first expansion; the ghost result tags every visited node with its true distance. */
    method Expand(seed: Node, depth: int, reverse: bool) returns (visited: set<Node>, ghost tags: map<Node, nat>)
      requires Valid()
      ensures forall n :: n in visited <==> Reaches(edges, reverse, seed, n, depth)
      ensures tags.Keys == visited
      ensures forall n :: n in tags ==> AtDistance(if reverse then rev else fwd, seed, n, tags[n])
    {
      hide PathWithin, AtDistance, Rank;
      var adj := if reverse then rev else fwd;
      SearchStarts(adj, seed, depth);
      SeedInUniverse(adj, seed);
      var added;
      visited, added, tags := Drain(adj, seed, depth, {seed}, [Entry(seed, 0)], map[seed := 0]);
    }

    /** Cached scores; a cache hit and a fresh computation cannot be told apart. */
    method Pagerank() returns (scores: Vec)
      requires Valid()
      modifies this`pagerankCache
      ensures Valid()
      ensures scores == DefaultRank(edges) && pagerankCache == Some(scores)
    {
      hide Rank;
      if pagerankCache.None? {
        var nodes := Nodes();
        var net := Network(nodes, map u | u in nodes :: Neighbors(u));
        NetworkFromNeighbors(edges, net);
        var computed := PageRank(net, DEFAULT_DAMPING, DEFAULT_ITERATIONS, DEFAULT_TOLERANCE, None);
        pagerankCache := Some(computed);
      }
      scores := pagerankCache.value;
    }
  }

  lemma NetworkFromNeighbors(edges: set<Edge>, net: Network)
    requires net.nodes == net.fwd.Keys == Nodes(edges)
    requires forall u :: u in net.nodes ==> net.fwd[u] == Succ(ForwardMap(edges), u)
    ensures net == NetworkOf(edges) && net.Valid()
  {
    forall u | u in net.nodes
      ensures net.fwd[u] == Out(edges, u) <= net.nodes
    {
    }
    VecOfSetsEqual(net.fwd, NetworkOf(edges).fwd);
  }

  lemma VecOfSetsEqual(a: Adjacency, b: Adjacency)
    requires a.Keys == b.Keys && forall u :: u in a.Keys ==> a[u] == b[u]
    ensures a == b
  {
  }

  /** Expansion follows the edges: a node is reached by a path of at most that many of them, or backwards. */
  lemma ReachesAlongEdges(edges: set<Edge>, reverse: bool, seed: Node, n: Node, depth: int)
    ensures Reaches(edges, reverse, seed, n, depth) <==>
            exists p: seq<Node> ::
              && 0 < |p| && (|p| == 1 || |p| <= depth + 1) && p[0] == seed && p[|p| - 1] == n
              && forall i :: 0 < i < |p| ==> (if reverse then Edge(p[i], p[i - 1]) else Edge(p[i - 1], p[i])) in edges
  {
    MapsAreConverse(edges);
    var adj := if reverse then BackwardMap(edges) else ForwardMap(edges);
    if Reaches(edges, reverse, seed, n, depth) {
      var p: seq<Node> :| IsPath(adj, p) && p[0] == seed && p[|p| - 1] == n && |p| <= Depth(depth) + 1;
      assert forall i :: 0 < i < |p| ==> p[i] in Succ(adj, p[i - 1]);
      assert 0 < |p| && (|p| == 1 || |p| <= depth + 1);
    }
    if p: seq<Node> :| && 0 < |p| && (|p| == 1 || |p| <= depth + 1) && p[0] == seed && p[|p| - 1] == n
                       && forall i :: 0 < i < |p| ==> (if reverse then Edge(p[i], p[i - 1]) else Edge(p[i - 1], p[i])) in edges {
      assert IsPath(adj, p);
    }
  }
}
