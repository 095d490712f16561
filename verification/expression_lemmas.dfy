/** What the expression walk computes: the recursive equations of
    `build_expression`, when it succeeds, and the shape of what it builds. */
module ExpressionLemmas {
  import opened Sequences
  import opened Nodes
  import opened Genomes
  import opened Decimal
  import opened GenomeLemmas
  import opened Expressions

  // ---------------------------------------------------------------------------
  // The walk, one node at a time

  /** Building the trees of a list succeeds exactly when every element's tree
      does, and then yields those trees in order. */
  lemma {:induction false} BuildEachPointwise(g: GenomeState, ins: seq<Node>, parent: Node)
    requires UniqueNodeIds(g.nodes) && FeedForward(g)
    requires forall x :: x in ins ==> x in g.nodes && x.layer < parent.layer
    ensures BuildEach(g, ins, parent).Some? <==> forall i :: 0 <= i < |ins| ==> BuildTree(g, ins[i]).Some?
    ensures BuildEach(g, ins, parent).Some? ==>
      var es := BuildEach(g, ins, parent).value;
      |es| == |ins| && forall i :: 0 <= i < |ins| ==> BuildTree(g, ins[i]) == Some(es[i])
    decreases |ins|
  {
    if |ins| > 0 {
      var rest := ins[1..];
      assert forall x :: x in rest ==> x in ins;
      BuildEachPointwise(g, rest, parent);
      assert forall i :: 1 <= i < |ins| ==> ins[i] == rest[i - 1];
    }
  }

  /** An INPUT node is the leaf `in_<id>`. */
  lemma InputExpression(g: GenomeState, node: Node)
    requires UniqueNodeIds(g.nodes) && FeedForward(g) && node in g.nodes && node.nodeType == INPUT
    ensures BuildExpression(g, node) == Some("in_" + NatToString(node.innovation))
  {
  }

  /** An OUTPUT renders as `out_<id> = ` followed by the expression of its
      driver; it fails when it is not driven by exactly one enabled connection
      from an existing node, or when its driver's expression fails. */
  lemma OutputExpression(g: GenomeState, node: Node)
    requires UniqueNodeIds(g.nodes) && FeedForward(g) && node in g.nodes && node.nodeType == OUTPUT
    ensures Driver(g, node).None? ==> BuildExpression(g, node).None?
    ensures Driver(g, node).Some? ==>
      BuildExpression(g, node)
      == match BuildExpression(g, Driver(g, node).value)
         case None => None
         case Some(s) => Some("out_" + NatToString(node.innovation) + " = " + s)
  {
  }

  /** A gate renders as the expressions of its input nodes, in node order,
      joined by its keyword and wrapped in parentheses. */
  lemma GateExpression(g: GenomeState, node: Node, ins: seq<Node>, parts: seq<string>)
    requires UniqueNodeIds(g.nodes) && FeedForward(g) && node in g.nodes && node.nodeType.IsGate()
    requires GetInputNodes(g, node) == Some(ins) && |parts| == |ins|
    requires forall i :: 0 <= i < |ins| ==> ins[i] in g.nodes && BuildExpression(g, ins[i]) == Some(parts[i])
    ensures BuildExpression(g, node) == Some("(" + Join(parts, Keyword(node.nodeType)) + ")")
  {
    InputsBelow(g, node);
    BuildEachPointwise(g, ins, node);
    var es := BuildEach(g, ins, node).value;
    forall i | 0 <= i < |ins|
      ensures Render(es[i]) == parts[i]
    {
      assert BuildTree(g, ins[i]) == Some(es[i]);
    }
    assert RenderAll(es) == parts;
    assert BuildTree(g, node) == Some(Gate(node.nodeType, es));
  }

  /** The input nodes of a node lie strictly below it. */
  lemma InputsBelow(g: GenomeState, node: Node)
    requires UniqueNodeIds(g.nodes) && FeedForward(g) && node in g.nodes && GetInputNodes(g, node).Some?
    ensures forall x :: x in GetInputNodes(g, node).value ==> x in g.nodes && x.layer < node.layer
  {
    forall x | x in GetInputNodes(g, node).value
      ensures x in g.nodes && x.layer < node.layer
    {
      SourceBelow(g, node, x);
    }
  }

  /** A gate fails when fewer than two connections feed it, or when one of its
      inputs' expressions fails. */
  lemma GateExpressionFails(g: GenomeState, node: Node)
    requires UniqueNodeIds(g.nodes) && FeedForward(g) && node in g.nodes && node.nodeType.IsGate()
    ensures GetInputNodes(g, node).None? ==> BuildExpression(g, node).None?
    ensures GetInputNodes(g, node).Some?
      && (exists x :: x in GetInputNodes(g, node).value && BuildTree(g, x).None?)
      ==> BuildExpression(g, node).None?
  {
    if GetInputNodes(g, node).Some? {
      InputsBelow(g, node);
      BuildEachPointwise(g, GetInputNodes(g, node).value, node);
    }
  }

  // ---------------------------------------------------------------------------
  // Input nodes are the distinct sources

  /** The ids of `nodes`. */
  function IdsOf(nodes: seq<Node>): set<nat> {
    set n | n in nodes :: n.innovation
  }

  /** The first node's id is not the id of any later node. */
  lemma IdsOfCons(nodes: seq<Node>)
    requires UniqueNodeIds(nodes) && |nodes| > 0
    ensures IdsOf(nodes) == {nodes[0].innovation} + IdsOf(nodes[1..])
    ensures nodes[0].innovation !in IdsOf(nodes[1..])
  {
    var t := nodes[1..];
    assert forall x :: x in nodes <==> x == nodes[0] || x in t;
    forall x | x in t
      ensures x.innovation != nodes[0].innovation
    {
      var k :| 0 <= k < |t| && t[k] == x;
      assert nodes[k + 1] == x;
    }
  }

  /** Filtering nodes with unique ids by membership of their id in `ids`
      keeps one node per id that occurs in both. */
  lemma {:induction false} FilterByIdsCount(nodes: seq<Node>, ids: seq<nat>)
    requires UniqueNodeIds(nodes)
    ensures |Filter(nodes, (n: Node) => n.innovation in ids)| == |Elements(ids) * IdsOf(nodes)|
  {
    if |nodes| > 0 {
      var h, t := nodes[0], nodes[1..];
      FilterByIdsCount(t, ids);
      IdsOfCons(nodes);
      if h.innovation in ids {
        assert Elements(ids) * IdsOf(nodes) == {h.innovation} + Elements(ids) * IdsOf(t);
      } else {
        assert Elements(ids) * IdsOf(nodes) == Elements(ids) * IdsOf(t);
      }
    } else {
      assert IdsOf(nodes) == {};
    }
  }

  /** Different enabled connections into one node come from different sources. */
  lemma SourcesDistinct(g: GenomeState, id: nat)
    requires NoDuplicatePairs(g.connections)
    ensures Distinct(Sources(IncomingEnabled(g.connections, id)))
  {
    var cs := g.connections;
    var p := (c: Connection) => c.output == id && c.enabled;
    assert Distinct(cs);
    FilterDistinct(cs, p);
    var incoming := Filter(cs, p);
    forall i, j | 0 <= i < j < |incoming|
      ensures incoming[i].input != incoming[j].input
    {
      assert incoming[i] in cs && incoming[j] in cs;
      var a :| 0 <= a < |cs| && cs[a] == incoming[i];
      var b :| 0 <= b < |cs| && cs[b] == incoming[j];
      assert a != b;
    }
  }

  /** Under the invariant a gate's input nodes are exactly one node per enabled
      incoming connection, each strictly below the gate. */
  lemma InputNodesOfGate(g: GenomeState, node: Node)
    requires UniqueNodeIds(g.nodes) && FeedForward(g) && NoDuplicatePairs(g.connections)
    requires node in g.nodes && GetInputNodes(g, node).Some?
    ensures var ins := GetInputNodes(g, node).value;
      |ins| == |IncomingEnabled(g.connections, node.innovation)| >= 2
      && forall x :: x in ins ==> x in g.nodes && x.layer < node.layer
  {
    var incoming := IncomingEnabled(g.connections, node.innovation);
    var ids := Sources(incoming);
    SourcesDistinct(g, node.innovation);
    DistinctCardinality(ids);
    FilterByIdsCount(g.nodes, ids);
    assert Elements(ids) <= IdsOf(g.nodes) by {
      forall id | id in Elements(ids)
        ensures id in IdsOf(g.nodes)
      {
        var i :| 0 <= i < |ids| && ids[i] == id;
        var c := incoming[i];
        assert c in g.connections && Wired(g.nodes, c);
        assert FindNode(g.nodes, id).value in g.nodes;
      }
    }
    assert Elements(ids) * IdsOf(g.nodes) == Elements(ids);
    InputsBelow(g, node);
  }

  // ---------------------------------------------------------------------------
  // Success and shape

  /** Ready for expression building, the walk succeeds from every node. */
  lemma {:induction false} BuildTreeTotal(g: GenomeState, node: Node)
    requires Inv(g) && Complete(g) && node in g.nodes
    ensures BuildTree(g, node).Some?
    decreases Rank(g, node), 1
  {
    match node.nodeType
    case INPUT =>
    case OUTPUT =>
      var incoming := IncomingEnabled(g.connections, node.innovation);
      var c := incoming[0];
      assert c in g.connections && Wired(g.nodes, c);
      var d := FindNode(g.nodes, c.input).value;
      var matches := Filter(g.nodes, (n: Node) => n.innovation == c.input);
      assert d in matches;
      DriverBelow(g, node);
      RankDecreases(g, Driver(g, node).value, node);
      BuildTreeTotal(g, Driver(g, node).value);
    case _ =>
      var ins := GetInputNodes(g, node).value;
      InputNodesOfGate(g, node);
      BuildEachTotal(g, ins, node);
  }

  lemma {:induction false} BuildEachTotal(g: GenomeState, ins: seq<Node>, parent: Node)
    requires Inv(g) && Complete(g)
    requires forall x :: x in ins ==> x in g.nodes && x.layer < parent.layer
    ensures BuildEach(g, ins, parent).Some?
    decreases Rank(g, parent), 0, |ins|
  {
    if |ins| > 0 {
      RankDecreases(g, ins[0], parent);
      BuildTreeTotal(g, ins[0]);
      BuildEachTotal(g, ins[1..], parent);
    }
  }

  /** Ready for expression building, every OUTPUT yields an expression. */
  lemma BuildExpressionTotal(g: GenomeState, node: Node)
    requires Inv(g) && Complete(g) && node in g.nodes
    ensures BuildExpression(g, node).Some?
  {
    BuildTreeTotal(g, node);
  }

  /** A well-shaped tree: leaves are INPUT nodes of the genome, gates have two
      or more operands, and an OUTPUT occurs only at the root. */
  ghost predicate Shaped(g: GenomeState, e: Expr)
    decreases e
  {
    match e
    case Input(id) => FindNode(g.nodes, id).Some? && FindNode(g.nodes, id).value.nodeType == INPUT
    case Output(_, d) => !d.Output? && Shaped(g, d)
    case Gate(_, args) => |args| >= 2 && forall a :: a in args ==> !a.Output? && Shaped(g, a)
  }

  /** Under the invariant whatever the walk builds is well shaped, and its root
      matches the node it started from. */
  lemma {:induction false} BuildTreeShaped(g: GenomeState, node: Node)
    requires Inv(g) && node in g.nodes && BuildTree(g, node).Some?
    ensures var e := BuildTree(g, node).value;
      Shaped(g, e)
      && (e.Input? <==> node.nodeType == INPUT) && (e.Output? <==> node.nodeType == OUTPUT)
      && (e.Input? || e.Output? ==> e.id == node.innovation)
      && (e.Gate? ==> e.op == node.nodeType)
    decreases Rank(g, node), 1
  {
    FindNodeOfMember(g.nodes, node);
    match node.nodeType
    case INPUT =>
    case OUTPUT =>
      var d := Driver(g, node).value;
      DriverBelow(g, node);
      RankDecreases(g, d, node);
      BuildTreeShaped(g, d);
      assert LayerFits(node) && LayerFits(d);
    case _ =>
      var ins := GetInputNodes(g, node).value;
      InputNodesOfGate(g, node);
      BuildEachShaped(g, ins, node);
      BuildEachPointwise(g, ins, node);
  }

  lemma {:induction false} BuildEachShaped(g: GenomeState, ins: seq<Node>, parent: Node)
    requires Inv(g) && parent in g.nodes && parent.nodeType.IsGate()
    requires forall x :: x in ins ==> x in g.nodes && x.layer < parent.layer
    requires BuildEach(g, ins, parent).Some?
    ensures forall a :: a in BuildEach(g, ins, parent).value ==> !a.Output? && Shaped(g, a)
    decreases Rank(g, parent), 0, |ins|
  {
    if |ins| > 0 {
      var x := ins[0];
      RankDecreases(g, x, parent);
      BuildTreeShaped(g, x);
      assert LayerFits(parent) && LayerFits(x);
      BuildEachShaped(g, ins[1..], parent);
    }
  }

  /** An OUTPUT driven straight by an INPUT renders as `out_<id> = in_<i>`,
      where `i` is the id of that driving INPUT. */
  lemma WireExpression(g: GenomeState, o: Node)
    requires UniqueNodeIds(g.nodes) && FeedForward(g) && o in g.nodes && o.nodeType == OUTPUT
    requires Driver(g, o).Some? && Driver(g, o).value.nodeType == INPUT
    ensures BuildExpression(g, o)
         == Some("out_" + NatToString(o.innovation) + " = " + ("in_" + NatToString(Driver(g, o).value.innovation)))
  {
    InputExpression(g, Driver(g, o).value);
    OutputExpression(g, o);
  }

  /** In a fresh genome with at least as many inputs as outputs every OUTPUT
      is driven by one INPUT. */
  lemma FreshOutputDriver(n: nat, m: nat, inOrder: seq<nat>, outOrder: seq<nat>, j: nat)
    requires IsPermutation(inOrder, n) && IsPermutation(outOrder, m) && m <= n && j < m
    ensures var g := InitialGenome(n, m, inOrder, outOrder);
      Inv(g) && Node(n + j, OUTPUT, 1.0) in g.nodes
      && exists i :: 0 <= i < n && Driver(g, Node(n + j, OUTPUT, 1.0)) == Some(Node(i, INPUT, 0.0))
  {
    var g := InitialGenome(n, m, inOrder, outOrder);
    var o := Node(n + j, OUTPUT, 1.0);
    InitialNodesIndexed(n, m);
    assert g.nodes[n + j] == o;
    InitialGenomeValid(n, m, inOrder, outOrder);
    InitialGenomeComplete(n, m, inOrder, outOrder);
    InitialGenomeWiring(n, m, inOrder, outOrder);
    var c := IncomingEnabled(g.connections, o.innovation)[0];
    assert c in g.connections;
    var e := FindNode(g.nodes, c.input).value;
    assert e == Node(c.input, INPUT, 0.0);
    var matches := Filter(g.nodes, (x: Node) => x.innovation == c.input);
    assert e in matches;
    var d := Driver(g, o).value;
    SameIdSameNode(g.nodes, d, e);
    assert c.input < n;
  }

  /** In a fresh genome with at least as many inputs as outputs every OUTPUT
      is a plain wire from one INPUT: its expression is `out_<id> = in_<i>`. */
  lemma FirstGenerationWires(n: nat, m: nat, inOrder: seq<nat>, outOrder: seq<nat>, j: nat)
    requires IsPermutation(inOrder, n) && IsPermutation(outOrder, m) && m <= n && j < m
    ensures var g := InitialGenome(n, m, inOrder, outOrder);
      Inv(g) && Node(n + j, OUTPUT, 1.0) in g.nodes
      && exists i ::
           0 <= i < n && Driver(g, Node(n + j, OUTPUT, 1.0)) == Some(Node(i, INPUT, 0.0))
           && BuildExpression(g, Node(n + j, OUTPUT, 1.0)) == Some("out_" + NatToString(n + j) + " = " + ("in_" + NatToString(i)))
  {
    var g := InitialGenome(n, m, inOrder, outOrder);
    var o := Node(n + j, OUTPUT, 1.0);
    FreshOutputDriver(n, m, inOrder, outOrder, j);
    WireExpression(g, o);
  }
}
