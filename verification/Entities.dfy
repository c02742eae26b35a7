/** The relation record shared by the graph builder and the impact analyzer (libs/core/entities.py). */
module Entities {
  import opened Digraphs

  datatype RelationType =
    | Imports | Defines | SameFileCalls | Inherits | TestsFor | Specifies | References | UsesEnv

  /** Types are plain strings in the source; "file" is the only value that is tested. */
  datatype Relation =
    Relation(srcType: string, srcRef: Node, dstType: string, dstRef: Node, relationType: RelationType)

  function EdgeOf(r: Relation): Edge {
    Edge(r.srcRef, r.dstRef)
  }

  function EdgesOf(rels: seq<Relation>): set<Edge> {
    set r | r in rels :: EdgeOf(r)
  }
}
