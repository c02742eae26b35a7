/**
 * Bounded breadth-first search over an adjacency map: what its queue and visited set mean while it runs.
 * Both searches of the code base (graph expansion and impact analysis) are proved against this module.
 */
module Reachability {
  import opened Digraphs

  type Adjacency = map<Node, set<Node>>

  /** A queued node together with the depth at which it was met. */
  datatype Entry = Entry(node: Node, dist: nat)
  type Queue = seq<Entry>

  function Succ(adj: Adjacency, n: Node): set<Node> {
    if n in adj then adj[n] else {}
  }

  ghost predicate IsPath(adj: Adjacency, p: seq<Node>) {
    |p| > 0 && forall i :: 0 < i < |p| ==> p[i] in Succ(adj, p[i - 1])
  }

  /** There is a path of at most k steps from seed to n. */
  ghost predicate PathWithin(adj: Adjacency, seed: Node, n: Node, k: nat) {
    exists p: seq<Node> :: IsPath(adj, p) && p[0] == seed && p[|p| - 1] == n && |p| <= k + 1
  }

  /** The same, level by level: the form the search follows. */
  ghost predicate Within(adj: Adjacency, seed: Node, n: Node, k: nat)
    decreases k
  {
    if k == 0 then n == seed
    else Within(adj, seed, n, k - 1) || exists m :: Within(adj, seed, m, k - 1) && n in Succ(adj, m)
  }

  ghost predicate AtDistance(adj: Adjacency, seed: Node, n: Node, k: nat) {
    Within(adj, seed, n, k) && (k > 0 ==> !Within(adj, seed, n, k - 1))
  }

  lemma {:induction false} WithinMonotone(adj: Adjacency, seed: Node, n: Node, j: nat, k: nat)
    requires j <= k && Within(adj, seed, n, j)
    ensures Within(adj, seed, n, k)
  {
    if j < k {
      WithinMonotone(adj, seed, n, j, k - 1);
    }
  }

  lemma {:induction false} PathIsWithin(adj: Adjacency, p: seq<Node>)
    requires IsPath(adj, p)
    ensures Within(adj, p[0], p[|p| - 1], |p| - 1)
  {
    if |p| > 1 {
      var q := p[..|p| - 1];
      PathIsWithin(adj, q);
      assert p[|p| - 1] in Succ(adj, q[|q| - 1]);
    }
  }

  lemma {:induction false} WithinHasPath(adj: Adjacency, seed: Node, n: Node, k: nat) returns (p: seq<Node>)
    requires Within(adj, seed, n, k)
    ensures IsPath(adj, p) && p[0] == seed && p[|p| - 1] == n && |p| <= k + 1
    decreases k
  {
    if k == 0 {
      p := [n];
    } else if Within(adj, seed, n, k - 1) {
      p := WithinHasPath(adj, seed, n, k - 1);
    } else {
      var m :| Within(adj, seed, m, k - 1) && n in Succ(adj, m);
      var q := WithinHasPath(adj, seed, m, k - 1);
      p := q + [n];
    }
  }

  /** Levels and paths are the same notion. */
  lemma WithinIffPath(adj: Adjacency, seed: Node, n: Node, k: nat)
    ensures Within(adj, seed, n, k) <==> PathWithin(adj, seed, n, k)
  {
    if Within(adj, seed, n, k) {
      var p := WithinHasPath(adj, seed, n, k);
    }
    if PathWithin(adj, seed, n, k) {
      var p: seq<Node> :| IsPath(adj, p) && p[0] == seed && p[|p| - 1] == n && |p| <= k + 1;
      PathIsWithin(adj, p);
      WithinMonotone(adj, seed, n, |p| - 1, k);
    }
  }

  /* ----- the state of a search ----- */

  /** Every visited node carries its true distance. */
  ghost predicate Exact(adj: Adjacency, seed: Node, tags: map<Node, nat>) {
    forall n :: n in tags ==> AtDistance(adj, seed, n, tags[n])
  }

  ghost predicate Queued(queue: Queue, n: Node) {
    exists i :: 0 <= i < |queue| && queue[i].node == n
  }

  /** Queue entries carry the distances of visited nodes, in order, spanning at most two levels from lo on. */
  ghost predicate Ordered(tags: map<Node, nat>, queue: Queue, lo: nat) {
    && (forall i :: 0 <= i < |queue| ==>
          queue[i].node in tags && tags[queue[i].node] == queue[i].dist && lo <= queue[i].dist <= lo + 1)
    && (forall i, j :: 0 <= i < j < |queue| ==> queue[i].dist <= queue[j].dist)
  }

  /** A visited node that is neither queued nor exempt is at full depth or has all its successors visited. */
  ghost predicate Explored(adj: Adjacency, depth: int, tags: map<Node, nat>, queue: Queue, exempt: set<Node>) {
    forall n :: n in tags && !Queued(queue, n) && n !in exempt && tags[n] < depth ==> Succ(adj, n) <= tags.Keys
  }

  ghost predicate Searching(adj: Adjacency, seed: Node, depth: int, tags: map<Node, nat>, queue: Queue) {
    && seed in tags
    && Exact(adj, seed, tags)
    && Explored(adj, depth, tags, queue, {})
    && (|queue| > 0 ==> Ordered(tags, queue, queue[0].dist))
    && (forall n :: n in tags ==> tags[n] <= depth || tags[n] == 0)
  }

  /** Between taking node (at distance d) from the queue and having looked at all its successors but todo. */
  ghost predicate Scanning(adj: Adjacency, seed: Node, depth: int, tags: map<Node, nat>, queue: Queue,
                           node: Node, d: nat, todo: set<Node>) {
    && seed in tags && node in tags && tags[node] == d < depth
    && Exact(adj, seed, tags)
    && Explored(adj, depth, tags, queue, {node})
    && Ordered(tags, queue, d)
    && todo <= Succ(adj, node) <= tags.Keys + todo
    && (forall n :: Within(adj, seed, n, d) ==> n in tags)
    && (forall n :: n in tags ==> tags[n] <= depth || tags[n] == 0)
  }

  lemma SearchStarts(adj: Adjacency, seed: Node, depth: int)
    ensures Searching(adj, seed, depth, map[seed := 0], [Entry(seed, 0)])
  {
    assert Queued([Entry(seed, 0)], seed) by {
      assert [Entry(seed, 0)][0].node == seed;
    }
  }

  lemma QueuedTail(queue: Queue, n: Node)
    requires |queue| > 0 && Queued(queue, n)
    ensures n == queue[0].node || Queued(queue[1..], n)
  {
    var i :| 0 <= i < |queue| && queue[i].node == n;
    if i > 0 {
      assert queue[1..][i - 1].node == n;
    }
  }

  lemma QueuedAppend(queue: Queue, e: Entry, n: Node)
    requires Queued(queue, n) || n == e.node
    ensures Queued(queue + [e], n)
  {
    if n == e.node {
      assert (queue + [e])[|queue|].node == n;
    } else {
      var i :| 0 <= i < |queue| && queue[i].node == n;
      assert (queue + [e])[i].node == n;
    }
  }

  /** Every level up to the smallest queued distance has been visited completely. */
  lemma {:induction false} LevelsAreVisited(adj: Adjacency, seed: Node, depth: int, tags: map<Node, nat>, queue: Queue,
                                            n: Node, j: nat)
    requires seed in tags && Exact(adj, seed, tags) && Explored(adj, depth, tags, queue, {})
    requires forall i :: 0 <= i < |queue| ==> queue[i].node in tags && j <= tags[queue[i].node]
    requires j <= depth || j == 0
    requires Within(adj, seed, n, j)
    ensures n in tags
    decreases j
  {
    if j == 0 {
    } else if Within(adj, seed, n, j - 1) {
      LevelsAreVisited(adj, seed, depth, tags, queue, n, j - 1);
    } else {
      var m :| Within(adj, seed, m, j - 1) && n in Succ(adj, m);
      LevelsAreVisited(adj, seed, depth, tags, queue, m, j - 1);
      if tags[m] > j - 1 {
        WithinMonotone(adj, seed, m, j - 1, tags[m] - 1);
      }
      assert !Queued(queue, m);
    }
  }

  /** Taking a node at full depth from the queue needs no scan. */
  lemma SkipKeepsSearching(adj: Adjacency, seed: Node, depth: int, tags: map<Node, nat>, queue: Queue)
    requires Searching(adj, seed, depth, tags, queue)
    requires |queue| > 0 && queue[0].dist >= depth
    ensures Searching(adj, seed, depth, tags, queue[1..])
  {
    forall n | Queued(queue, n) {
      QueuedTail(queue, n);
    }
  }

  lemma ScanStarts(adj: Adjacency, seed: Node, depth: int, tags: map<Node, nat>, queue: Queue)
    requires Searching(adj, seed, depth, tags, queue)
    requires |queue| > 0 && queue[0].dist < depth
    ensures Scanning(adj, seed, depth, tags, queue[1..], queue[0].node, queue[0].dist, Succ(adj, queue[0].node))
  {
    var Entry(node, d) := queue[0];
    forall n | Within(adj, seed, n, d)
      ensures n in tags
    {
      LevelsAreVisited(adj, seed, depth, tags, queue, n, d);
    }
    forall n | Queued(queue, n) {
      QueuedTail(queue, n);
    }
  }

  /** A successor met for the first time is one step further than the scanned node. */
  lemma VisitKeepsScanning(adj: Adjacency, seed: Node, depth: int, tags: map<Node, nat>, queue: Queue,
                           node: Node, d: nat, todo: set<Node>, nxt: Node)
    requires Scanning(adj, seed, depth, tags, queue, node, d, todo)
    requires nxt in todo && nxt !in tags
    ensures Scanning(adj, seed, depth, tags[nxt := d + 1], queue + [Entry(nxt, d + 1)], node, d, todo - {nxt})
  {
    assert AtDistance(adj, seed, nxt, d + 1) by {
      assert Within(adj, seed, node, d);
    }
    hide Within, AtDistance, Exact, Explored, Ordered, Succ;
    VisitKeepsExact(adj, seed, tags, nxt, d + 1);
    VisitKeepsExplored(adj, depth, tags, queue, {node}, Entry(nxt, d + 1));
    VisitKeepsOrdered(tags, queue, d, nxt);
    assert tags[nxt := d + 1].Keys == tags.Keys + {nxt};
  }

  lemma VisitKeepsExact(adj: Adjacency, seed: Node, tags: map<Node, nat>, nxt: Node, d: nat)
    requires Exact(adj, seed, tags) && AtDistance(adj, seed, nxt, d)
    ensures Exact(adj, seed, tags[nxt := d])
  {
    hide AtDistance;
  }

  lemma VisitKeepsExplored(adj: Adjacency, depth: int, tags: map<Node, nat>, queue: Queue, exempt: set<Node>, e: Entry)
    requires Explored(adj, depth, tags, queue, exempt)
    ensures Explored(adj, depth, tags[e.node := e.dist], queue + [e], exempt)
  {
    hide Queued, Succ;
    QueuedAppend(queue, e, e.node);
    forall n | Queued(queue, n)
      ensures Queued(queue + [e], n)
    {
      QueuedAppend(queue, e, n);
    }
  }

  lemma VisitKeepsOrdered(tags: map<Node, nat>, queue: Queue, d: nat, nxt: Node)
    requires Ordered(tags, queue, d) && nxt !in tags
    ensures Ordered(tags[nxt := d + 1], queue + [Entry(nxt, d + 1)], d)
  {
  }

  /** A successor met before changes nothing. */
  lemma SeenKeepsScanning(adj: Adjacency, seed: Node, depth: int, tags: map<Node, nat>, queue: Queue,
                          node: Node, d: nat, todo: set<Node>, nxt: Node)
    requires Scanning(adj, seed, depth, tags, queue, node, d, todo)
    requires nxt in todo && nxt in tags
    ensures Scanning(adj, seed, depth, tags, queue, node, d, todo - {nxt})
  {
  }

  lemma ScanEnds(adj: Adjacency, seed: Node, depth: int, tags: map<Node, nat>, queue: Queue, node: Node, d: nat)
    requires Scanning(adj, seed, depth, tags, queue, node, d, {})
    ensures Searching(adj, seed, depth, tags, queue)
  {
  }

  /** With an empty queue the visited nodes are exactly those within reach. */
  lemma SearchEnds(adj: Adjacency, seed: Node, depth: int, tags: map<Node, nat>)
    requires Searching(adj, seed, depth, tags, [])
    ensures forall n :: n in tags <==> PathWithin(adj, seed, n, if depth < 0 then 0 else depth)
    ensures forall n :: n in tags ==> AtDistance(adj, seed, n, tags[n])
  {
    var k := if depth < 0 then 0 else depth;
    forall n
      ensures n in tags <==> PathWithin(adj, seed, n, k)
    {
      WithinIffPath(adj, seed, n, k);
      if n in tags {
        WithinMonotone(adj, seed, n, tags[n], k);
      }
      if Within(adj, seed, n, k) {
        LevelsAreVisited(adj, seed, depth, tags, [], n, k);
      }
    }
  }

  /** All nodes a search from seed can ever visit. */
  function Universe(adj: Adjacency, seed: Node): set<Node> {
    {seed} + set m, n | m in adj && n in adj[m] :: n
  }

  lemma SeedInUniverse(adj: Adjacency, seed: Node)
    ensures {seed} <= Universe(adj, seed)
  {
  }

  lemma SuccInUniverse(adj: Adjacency, seed: Node, n: Node)
    ensures Succ(adj, n) <= Universe(adj, seed)
  {
  }

  /* ----- the search loop ----- */

  /** Takes nodes from the frontier until it is empty; added collects what is met for the first time. */
  method Drain(adj: Adjacency, seed: Node, depth: int, start: set<Node>, queue: Queue, ghost startTags: map<Node, nat>)
    returns (visited: set<Node>, added: set<Node>, ghost tags: map<Node, nat>)
    requires Searching(adj, seed, depth, startTags, queue)
    requires startTags.Keys == start <= Universe(adj, seed)
    ensures start <= visited && added == visited - start
    ensures forall n :: n in visited <==> PathWithin(adj, seed, n, if depth < 0 then 0 else depth)
    ensures tags.Keys == visited
    ensures forall n :: n in tags ==> AtDistance(adj, seed, n, tags[n])
  {
    hide Searching, Scanning, Universe, AtDistance, PathWithin;
    visited, added, tags := start, {}, startTags;
    var frontier := queue;
    while frontier != []
      invariant Searching(adj, seed, depth, tags, frontier)
      invariant tags.Keys == visited <= Universe(adj, seed)
      invariant visited == start + added && start !! added
      decreases Universe(adj, seed) - visited, |frontier|
    {
      var Entry(node, d) := frontier[0];
      if d >= depth {
        SkipKeepsSearching(adj, seed, depth, tags, frontier);
        frontier := frontier[1..];
        continue;
      }
      ScanStarts(adj, seed, depth, tags, frontier);
      SuccInUniverse(adj, seed, node);
      ghost var before := visited;
      frontier := frontier[1..];
      ghost var rest := |frontier|;
      var todo := Succ(adj, node);
      while todo != {}
        invariant todo <= Universe(adj, seed)
        invariant Scanning(adj, seed, depth, tags, frontier, node, d, todo)
        invariant tags.Keys == visited <= Universe(adj, seed)
        invariant visited == start + added && start !! added
        invariant before <= visited
        invariant before == visited ==> |frontier| == rest
        decreases todo
      {
        var nxt :| nxt in todo;
        if nxt !in visited {
          VisitKeepsScanning(adj, seed, depth, tags, frontier, node, d, todo, nxt);
          visited, added := visited + {nxt}, added + {nxt};
          tags := tags[nxt := d + 1];
          frontier := frontier + [Entry(nxt, d + 1)];
        } else {
          SeenKeepsScanning(adj, seed, depth, tags, frontier, node, d, todo, nxt);
        }
        todo := todo - {nxt};
      }
      ScanEnds(adj, seed, depth, tags, frontier, node, d);
    }
    SearchEnds(adj, seed, depth, tags);
  }

  /* ----- converse relations ----- */

  ghost predicate Converse(adj: Adjacency, rev: Adjacency) {
    forall m, n :: n in Succ(adj, m) <==> m in Succ(rev, n)
  }

  function Reversed(p: seq<Node>): (r: seq<Node>)
    ensures |r| == |p|
    ensures forall i :: 0 <= i < |p| ==> r[i] == p[|p| - 1 - i]
  {
    seq(|p|, i requires 0 <= i < |p| => p[|p| - 1 - i])
  }

  /** Reading a path backwards gives a path of the converse relation. */
  lemma ReversedPath(adj: Adjacency, rev: Adjacency, p: seq<Node>)
    requires Converse(adj, rev) && IsPath(adj, p)
    ensures IsPath(rev, Reversed(p))
  {
    var q := Reversed(p);
    forall i | 0 < i < |q|
      ensures q[i] in Succ(rev, q[i - 1])
    {
      assert p[|p| - i] in Succ(adj, p[|p| - 1 - i]);
    }
  }

  /** n is within k forward steps of s exactly if s is within k backward steps of n. */
  lemma ReachDuality(adj: Adjacency, rev: Adjacency, s: Node, n: Node, k: nat)
    requires Converse(adj, rev)
    ensures PathWithin(adj, s, n, k) <==> PathWithin(rev, n, s, k)
  {
    assert Converse(rev, adj);
    if PathWithin(adj, s, n, k) {
      var p: seq<Node> :| IsPath(adj, p) && p[0] == s && p[|p| - 1] == n && |p| <= k + 1;
      ReversedPath(adj, rev, p);
      var q := Reversed(p);
      assert IsPath(rev, q) && q[0] == n && q[|q| - 1] == s;
    }
    if PathWithin(rev, n, s, k) {
      var p: seq<Node> :| IsPath(rev, p) && p[0] == n && p[|p| - 1] == s && |p| <= k + 1;
      ReversedPath(rev, adj, p);
      var q := Reversed(p);
      assert IsPath(adj, q) && q[0] == s && q[|q| - 1] == n;
    }
  }
}
