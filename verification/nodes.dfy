/** The vertices and edges of a feed-forward boolean network genome. */
module Nodes {
  import opened Sequences

  /** The kinds of node: four boolean gates and the two kinds of terminal.
      INPUT nodes take no incoming connection, OUTPUT nodes give no outgoing one. */
  datatype NodeType = AND | OR | NAND | NOR | INPUT | OUTPUT {
    predicate IsGate() {
      this != INPUT && this != OUTPUT
    }
  }

  type GateType = t: NodeType | t.IsGate() witness AND

  /** The gate kinds a node without a given type is drawn from, in list order. */
  const RandomGateTypes: seq<GateType> := [AND, OR, NAND, NOR]

  /** A node: its innovation number doubles as its id within the genome. */
  datatype Node = Node(innovation: nat, nodeType: NodeType, layer: real)

  /** A directed edge from node id `input` to node id `output`. */
  datatype Connection = Connection(input: nat, output: nat, innovation: nat, enabled: bool)

  /** Node creation. Without a type the node becomes the gate
      `RandomGateTypes[gatePick]` (the random choice, supplied by the caller)
      at the given layer; an INPUT is forced to layer 0.0 and an OUTPUT to
      layer 1.0 whatever layer was passed. */
  function NewNode(innovation: nat, layer: real, nodeType: Option<NodeType>, gatePick: nat): (n: Node)
    requires gatePick < |RandomGateTypes|
    ensures n.innovation == innovation
    ensures nodeType.Some? ==> n.nodeType == nodeType.value
    ensures nodeType.None? ==> n.nodeType.IsGate()
    ensures n.nodeType == INPUT ==> n.layer == 0.0
    ensures n.nodeType == OUTPUT ==> n.layer == 1.0
    ensures n.nodeType.IsGate() ==> n.layer == layer
  {
    match nodeType
    case None => Node(innovation, RandomGateTypes[gatePick], layer)
    case Some(OUTPUT) => Node(innovation, OUTPUT, 1.0)
    case Some(INPUT) => Node(innovation, INPUT, 0.0)
    case Some(t) => Node(innovation, t, layer)
  }
}
