/**
 * The per-edge and per-vertex data of the uncertain graph (core/types.hpp):
 * an edge carries its probability and an index that numbers the edges of
 * the graph, handed out by a factory; a vertex carries its label.
 */
module Types {

  /** `EdgeData`; `probability_t` is a double, modelled as a real. */
  datatype EdgeData = EdgeData(probability: real, index: nat)

  /** `EdgeData()`: a certain edge with index 0. */
  const DefaultEdgeData := EdgeData(1.0, 0)

  /** `VertexData`: its `label` field (a reserved word in Dafny) is `name`. */
  datatype VertexData = VertexData(name: string)

  /** The label of `VertexData()`. */
  const NoLabel := "no label"

  /** `VertexData()` */
  const DefaultVertexData := VertexData(NoLabel)

  /** `EdgeDataFactory`: numbers the edges it builds 0, 1, 2, ... */
  class EdgeDataFactory {
    var idx: nat
    /** The indices handed out so far. */
    ghost var issued: set<nat>

    ghost predicate Valid()
      reads this
    {
      forall i: nat :: i in issued <==> i < idx
    }

    constructor ()
      ensures Valid() && idx == 0 && issued == {}
    {
      idx := 0;
      issued := {};
    }

    /** `build(p)`: the next index, never handed out before. */
    method Build(p: real) returns (e: EdgeData)
      requires Valid()
      modifies this
      ensures Valid()
      ensures e == EdgeData(p, old(idx)) && idx == old(idx) + 1
      ensures e.index !in old(issued) && issued == old(issued) + {e.index}
    {
      e := EdgeData(p, idx);
      idx := idx + 1;
      issued := issued + {e.index};
    }
  }

  /** Three factory calls from a fresh factory give indices 0, 1 and 2. */
  method ThreeBuilds(p: real, q: real, r: real) returns (a: EdgeData, b: EdgeData, c: EdgeData)
    ensures a == EdgeData(p, 0) && b == EdgeData(q, 1) && c == EdgeData(r, 2)
  {
    var f := new EdgeDataFactory();
    a := f.Build(p);
    b := f.Build(q);
    c := f.Build(r);
  }
}
