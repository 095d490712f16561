/** The genome as the mutable object of ffbneat.py: construction and the two
    mutations update its fields step by step, and each is specified by the
    corresponding function of module Genomes applied to the old state. */
module FfbNeat {
  import opened Sequences
  import opened Nodes
  import opened Genomes
  import opened GenomeLemmas

  /** A count as `range` uses it: a negative count gives no iterations. */
  function Clamp(count: int): nat {
    if count < 0 then 0 else count
  }

  class Genome {
    var nodes: seq<Node>
    var connections: seq<Connection>
    var innovationCounter: nat

    /** The fields as one value. */
    function State(): GenomeState
      reads this
    {
      GenomeState(nodes, connections, innovationCounter)
    }

    ghost predicate Valid()
      reads this
    {
      Inv(State())
    }

    /** Creates the INPUT nodes, then the OUTPUT nodes, then pairs the two
        shuffled lists from their ends until either runs out. The shuffles are
        `inOrder` and `outOrder`. */
    constructor (inputCount: int, outputCount: int, inOrder: seq<nat>, outOrder: seq<nat>)
      requires IsPermutation(inOrder, Clamp(inputCount)) && IsPermutation(outOrder, Clamp(outputCount))
      ensures State() == InitialGenome(Clamp(inputCount), Clamp(outputCount), inOrder, outOrder)
      ensures Valid()
    {
      connections := [];
      nodes := [];
      innovationCounter := 0;
      new;
      var n, m := Clamp(inputCount), Clamp(outputCount);

      for ii := 0 to n
        invariant nodes == InputNodes(ii) && innovationCounter == ii && connections == []
      {
        InitialNodesSnoc(0, ii, 0);
        nodes := nodes + [NewNode(innovationCounter, 0.0, Some(INPUT), 0)];
        innovationCounter := innovationCounter + 1;
      }
      for ii := 0 to m
        invariant nodes == InputNodes(n) + OutputNodes(n, ii) && innovationCounter == n + ii && connections == []
      {
        InitialNodesSnoc(n, 0, ii);
        nodes := nodes + [NewNode(innovationCounter, 0.0, Some(OUTPUT), 0)];
        innovationCounter := innovationCounter + 1;
      }
      ConnectInputsToOutputs(n, m, inOrder, outOrder);
    }

    /** The last step of construction: shuffle the INPUTs and the OUTPUTs
        (the shuffles are `inOrder` and `outOrder`) and keep popping one of
        each, connecting them, until either list runs out. */
    method ConnectInputsToOutputs(n: nat, m: nat, inOrder: seq<nat>, outOrder: seq<nat>)
      requires IsPermutation(inOrder, n) && IsPermutation(outOrder, m)
      requires State() == GenomeState(InputNodes(n) + OutputNodes(n, m), [], n + m)
      modifies this
      ensures State() == InitialGenome(n, m, inOrder, outOrder)
      ensures Valid()
    {
      InitialNodesByType(n, m);
      var inputs := Shuffled(NodesOfType(nodes, INPUT), inOrder);
      var outputs := Shuffled(NodesOfType(nodes, OUTPUT), outOrder);
      ghost var wiring := InitialConnections(n, m, inOrder, outOrder);
      assert inputs == inputs[..n] && outputs == outputs[..m];
      ghost var nodesBefore := nodes;
      while |inputs| > 0 && |outputs| > 0
        invariant nodes == nodesBefore
        invariant |connections| <= n && |connections| <= m && connections == wiring[..|connections|]
        invariant inputs == Shuffled(InputNodes(n), inOrder)[..n - |connections|]
        invariant outputs == Shuffled(OutputNodes(n, m), outOrder)[..m - |connections|]
        invariant innovationCounter == n + m + |connections|
        decreases |inputs|
      {
        InitialWiringStep(n, m, inOrder, outOrder, |connections|, inputs, outputs);
        var fromNode := inputs[|inputs| - 1];
        inputs := inputs[..|inputs| - 1];
        var toNode := outputs[|outputs| - 1];
        outputs := outputs[..|outputs| - 1];
        connections := connections + [Connection(fromNode.innovation, toNode.innovation, innovationCounter, true)];
        innovationCounter := innovationCounter + 1;
      }
      assert connections == wiring;
      InitialGenomeValid(n, m, inOrder, outOrder);
    }

    /** Whether some connection, enabled or not, already runs from `from` to `to`. */
    method ConnectionExists(from: nat, to: nat) returns (found: bool)
      ensures found <==> HasPair(connections, from, to)
    {
      found := false;
      for i := 0 to |connections|
        invariant forall k :: 0 <= k < i ==> !(connections[k].input == from && connections[k].output == to)
      {
        if connections[i].input == from && connections[i].output == to {
          found := true;
          return;
        }
      }
    }

    /** The add-connection mutation: draw two distinct non-OUTPUT nodes (the
        draws are `samples`), orient the edge upward, and keep it unless the
        two share a layer or the pair is already present. */
    method AddConnection(samples: seq<(nat, nat)>) returns (outcome: ConnectionOutcome)
      requires SamplesFit(samples, |NonOutputNodes(nodes)|)
      modifies this
      ensures (State(), outcome) == AddConnectionSpec(old(State()), samples)
      ensures old(Valid()) ==> Valid()
    {
      ghost var g := State();
      if Valid() {
        AddConnectionPreservesInv(g, samples);
      }
      var validNodes := NonOutputNodes(nodes);
      if |validNodes| < 2 {
        return TooFewCandidates;
      }
      var attempt := 0;
      while attempt < |samples|
        invariant attempt <= |samples| && State() == g
        invariant FirstAccepted(g, validNodes, samples) == FirstAccepted(g, validNodes, samples[attempt..])
      {
        ghost var rest := samples[attempt..];
        assert rest[1..] == samples[attempt + 1..];
        var nodeA, nodeB := validNodes[samples[attempt].0], validNodes[samples[attempt].1];
        attempt := attempt + 1;
        var newConn;
        if nodeA.layer > nodeB.layer {
          newConn := Connection(nodeB.innovation, nodeA.innovation, innovationCounter, true);
        } else if nodeA.layer < nodeB.layer {
          newConn := Connection(nodeA.innovation, nodeB.innovation, innovationCounter, true);
        } else {
          assert Attempt(g, nodeA, nodeB).None?;
          continue;
        }
        var duplicate := ConnectionExists(newConn.input, newConn.output);
        if !duplicate {
          assert FirstAccepted(g, validNodes, rest) == Some(newConn);
          connections := connections + [newConn];
          innovationCounter := innovationCounter + 1;
          return Connected;
        }
        assert Attempt(g, nodeA, nodeB).None?;
      }
      return NoAvailableConnection;
    }

    /** The add-node mutation: pick an enabled connection (the choice is
        `connPick`), and split it with a gate of kind `gatePick` at the
        midpoint of its ends' layers. */
    method AddNode(connPick: nat, gatePick: nat, lowerPick: nat) returns (outcome: NodeOutcome)
      requires Valid() && gatePick < |RandomGateTypes| && PicksFit(State(), connPick, lowerPick)
      modifies this
      ensures (State(), outcome) == AddNodeSpec(old(State()), connPick, gatePick, lowerPick)
      ensures Valid()
    {
      ghost var g := State();
      AddNodePreservesInv(g, connPick, gatePick, lowerPick);
      var enabled := EnabledIndices(connections);
      if |enabled| == 0 {
        return NoEnabledConnection;
      }
      var idx := enabled[connPick];
      var conn := connections[idx];
      EndpointsBelowCounter(g, conn);
      var inLayer := FindNode(nodes, conn.input).value.layer;
      var outLayer := FindNode(nodes, conn.output).value.layer;
      var newLayer := (inLayer + outLayer) / 2.0;
      assert idx == ChosenIndex(g, connPick) && newLayer == SpliceLayer(g, idx);
      FilterSnoc(g.nodes, NewNode(g.counter, newLayer, None, gatePick), (n: Node) => n.layer < newLayer && n.innovation != conn.input);
      outcome := SplitConnection(idx, newLayer, gatePick, lowerPick);
    }

    /** The body of add-node once the connection `idx` and the layer are
        known: disable the connection, append a gate of kind `gatePick` at
        `newLayer`, wire old source -> gate -> old target, and wire a third
        input from a node strictly below the gate other than the old source
        (the choice is `lowerPick`). Disabling the connection before the
        layers are read, as the object does, reads the same layers: they come
        from the nodes alone. */
    method SplitConnection(idx: nat, newLayer: real, gatePick: nat, lowerPick: nat) returns (outcome: NodeOutcome)
      requires idx < |connections| && gatePick < |RandomGateTypes|
      requires var v := NewNode(innovationCounter, newLayer, None, gatePick);
        var lower := LowerCandidates(nodes + [v], newLayer, connections[idx].input);
        |lower| > 0 ==> lowerPick < |lower|
      modifies this
      ensures (State(), outcome)
        == SplitSteps(old(State()), idx, NewNode(old(innovationCounter), newLayer, None, gatePick), lowerPick)
    {
      var conn := connections[idx];
      connections := connections[idx := conn.(enabled := false)];

      var newNode := NewNode(innovationCounter, newLayer, None, gatePick);
      nodes := nodes + [newNode];
      innovationCounter := innovationCounter + 1;

      connections := connections + [Connection(conn.input, newNode.innovation, innovationCounter, true)];
      innovationCounter := innovationCounter + 1;
      connections := connections + [Connection(newNode.innovation, conn.output, innovationCounter, true)];
      innovationCounter := innovationCounter + 1;
      ghost var base := old(connections)[idx := conn.(enabled := false)];
      assert connections == base + SpliceTail(old(State()), idx, newNode, None);

      var lower := LowerCandidates(nodes, newLayer, conn.input);
      if |lower| == 0 {
        return NoLowerLayerNode;
      }
      var lowerNode := lower[lowerPick];
      connections := connections + [Connection(lowerNode.innovation, newNode.innovation, innovationCounter, true)];
      innovationCounter := innovationCounter + 1;
      assert connections == base + SpliceTail(old(State()), idx, newNode, Some(lowerNode));
      return NodeAdded;
    }
  }
}
