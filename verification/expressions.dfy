/** Translation of a genome into a boolean expression, rooted at a node and
    walking enabled connections backwards to the INPUT leaves. The walk builds
    an expression tree; rendering the tree gives the text `build_expression`
    returns. A failed `assert` or an index out of range in the walk is `None`. */
module Expressions {
  import opened Sequences
  import opened Nodes
  import opened Genomes
  import opened Decimal
  import opened GenomeLemmas

  datatype Expr =
    | Input(id: nat)
    | Output(id: nat, driver: Expr)
    | Gate(op: GateType, args: seq<Expr>)

  /** The source ids of `cs`, in order. */
  function Sources(cs: seq<Connection>): seq<nat> {
    seq(|cs|, i requires 0 <= i < |cs| => cs[i].input)
  }

  /** The nodes feeding `node` through enabled connections, in node order and
      each once; `None` when fewer than two connections feed it. */
  function GetInputNodes(g: GenomeState, node: Node): (r: Option<seq<Node>>)
    ensures r.None? <==> |IncomingEnabled(g.connections, node.innovation)| < 2
    ensures r.Some? ==> forall x :: x in r.value <==> x in g.nodes && x.innovation in Sources(IncomingEnabled(g.connections, node.innovation))
    ensures r.Some? ==> Subsequence(r.value, g.nodes)
  {
    var incoming := IncomingEnabled(g.connections, node.innovation);
    if |incoming| < 2 then None
    else
      var ids := Sources(incoming);
      var p := (n: Node) => n.innovation in ids;
      FilterSubsequence(g.nodes, p);
      Some(Filter(g.nodes, p))
  }

  /** The node driving an OUTPUT: the source of its single enabled incoming
      connection; `None` when there is not exactly one such connection or its
      source is not a node. */
  function Driver(g: GenomeState, node: Node): (r: Option<Node>)
    ensures var incoming := IncomingEnabled(g.connections, node.innovation);
      r.None? <==> |incoming| != 1 || forall n :: n in g.nodes ==> n.innovation != incoming[0].input
    ensures r.Some? ==>
      var incoming := IncomingEnabled(g.connections, node.innovation);
      |incoming| == 1 && r == FindNode(g.nodes, incoming[0].input)
  {
    var incoming := IncomingEnabled(g.connections, node.innovation);
    if |incoming| != 1 then None
    else
      var p := (n: Node) => n.innovation == incoming[0].input;
      var matches := Filter(g.nodes, p);
      FirstMatchIsFound(g.nodes, incoming[0].input, p);
      if |matches| == 0 then None else Some(matches[0])
  }

  /** The first node a filter by id keeps is the node `FindNode` finds. */
  lemma {:induction false} FirstMatchIsFound(nodes: seq<Node>, id: nat, p: Node -> bool)
    requires forall n :: p(n) <==> n.innovation == id
    ensures |Filter(nodes, p)| > 0 ==> Some(Filter(nodes, p)[0]) == FindNode(nodes, id)
  {
    if |nodes| > 0 && nodes[0].innovation != id {
      FirstMatchIsFound(nodes[1..], id, p);
    }
  }

  /** The number of nodes strictly below `node`'s layer: the walk's measure. */
  function Rank(g: GenomeState, node: Node): nat {
    |Filter(g.nodes, (n: Node) => n.layer < node.layer)|
  }

  /** A node of the genome strictly below another has a strictly smaller rank. */
  lemma RankDecreases(g: GenomeState, lower: Node, upper: Node)
    requires lower in g.nodes && lower.layer < upper.layer
    ensures Rank(g, lower) < Rank(g, upper)
  {
    FilterCountMonotone(g.nodes, (n: Node) => n.layer < lower.layer, (n: Node) => n.layer < upper.layer);
  }

  /** The source of an enabled connection into a node lies strictly below it. */
  lemma SourceBelow(g: GenomeState, node: Node, x: Node)
    requires UniqueNodeIds(g.nodes) && FeedForward(g) && node in g.nodes && x in g.nodes
    requires x.innovation in Sources(IncomingEnabled(g.connections, node.innovation))
    ensures x.layer < node.layer
  {
    var incoming := IncomingEnabled(g.connections, node.innovation);
    var i :| 0 <= i < |incoming| && Sources(incoming)[i] == x.innovation;
    var c := incoming[i];
    assert c in g.connections && Wired(g.nodes, c);
    FindNodeOfMember(g.nodes, node);
    FindNodeOfMember(g.nodes, x);
  }

  lemma DriverBelow(g: GenomeState, node: Node)
    requires UniqueNodeIds(g.nodes) && FeedForward(g) && node in g.nodes && Driver(g, node).Some?
    ensures Driver(g, node).value.layer < node.layer
  {
    var incoming := IncomingEnabled(g.connections, node.innovation);
    assert Sources(incoming)[0] == incoming[0].input;
    SourceBelow(g, node, Driver(g, node).value);
  }

  /** The expression tree rooted at `node`. */
  function BuildTree(g: GenomeState, node: Node): Option<Expr>
    requires UniqueNodeIds(g.nodes) && FeedForward(g) && node in g.nodes
    decreases Rank(g, node), 1
  {
    match node.nodeType
    case INPUT => Some(Input(node.innovation))
    case OUTPUT =>
      (match Driver(g, node)
       case None => None
       case Some(d) =>
         DriverBelow(g, node);
         RankDecreases(g, d, node);
         match BuildTree(g, d)
         case None => None
         case Some(e) => Some(Output(node.innovation, e)))
    case _ =>
      match GetInputNodes(g, node)
      case None => None
      case Some(ins) =>
        assert forall x :: x in ins ==> x in g.nodes && x.layer < node.layer by {
          forall x | x in ins
            ensures x in g.nodes && x.layer < node.layer
          {
            SourceBelow(g, node, x);
          }
        }
        match BuildEach(g, ins, node)
        case None => None
        case Some(es) => Some(Gate(node.nodeType, es))
  }

  /** The trees of `ins`, all strictly below `parent`, in order; `None` as soon as one fails. */
  function BuildEach(g: GenomeState, ins: seq<Node>, parent: Node): Option<seq<Expr>>
    requires UniqueNodeIds(g.nodes) && FeedForward(g)
    requires forall x :: x in ins ==> x in g.nodes && x.layer < parent.layer
    decreases Rank(g, parent), 0, |ins|
  {
    if |ins| == 0 then Some([])
    else
      RankDecreases(g, ins[0], parent);
      match BuildTree(g, ins[0])
      case None => None
      case Some(e) =>
        match BuildEach(g, ins[1..], parent)
        case None => None
        case Some(es) => Some([e] + es)
  }

  /** The separator joining the operands of each gate kind. */
  function Keyword(op: GateType): string {
    match op
    case AND => " AND  "
    case OR => " OR "
    case NAND => " NAND "
    case NOR => " NOR "
  }

  function Render(e: Expr): string
    decreases e
  {
    match e
    case Input(id) => "in_" + NatToString(id)
    case Output(id, d) => "out_" + NatToString(id) + " = " + Render(d)
    case Gate(op, args) => "(" + Join(RenderAll(args), Keyword(op)) + ")"
  }

  function RenderAll(args: seq<Expr>): (r: seq<string>)
    decreases args
    ensures |r| == |args| && forall i :: 0 <= i < |args| ==> r[i] == Render(args[i])
  {
    if |args| == 0 then [] else [Render(args[0])] + RenderAll(args[1..])
  }

  /** The text `build_expression` returns for `node`. */
  function BuildExpression(g: GenomeState, node: Node): Option<string>
    requires UniqueNodeIds(g.nodes) && FeedForward(g) && node in g.nodes
  {
    match BuildTree(g, node)
    case None => None
    case Some(e) => Some(Render(e))
  }
}
