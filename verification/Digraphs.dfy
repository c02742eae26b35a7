/** Directed graphs given by their edge set: what every operation of the relation graph is specified over. */
module Digraphs {

  type Node = string

  datatype Edge = Edge(src: Node, dst: Node)

  /** Destinations referenced by u. */
  function Out(edges: set<Edge>, u: Node): set<Node> {
    set e | e in edges && e.src == u :: e.dst
  }

  /** Sources referencing u. */
  function In(edges: set<Edge>, u: Node): set<Node> {
    set e | e in edges && e.dst == u :: e.src
  }

  /** Every node that occurs as a source or as a destination. */
  function Nodes(edges: set<Edge>): set<Node> {
    (set e | e in edges :: e.src) + (set e | e in edges :: e.dst)
  }
}
