/** What construction and the two mutations guarantee about a genome. */
module GenomeLemmas {
  import opened Sequences
  import opened Nodes
  import opened Genomes

  // ---------------------------------------------------------------------------
  // Node lookup

  /** With unique ids, looking a node's own id up finds that node. */
  lemma {:induction false} FindNodeOfMember(nodes: seq<Node>, n: Node)
    requires UniqueNodeIds(nodes) && n in nodes
    ensures FindNode(nodes, n.innovation) == Some(n)
  {
    if nodes[0] != n {
      var k :| 0 <= k < |nodes| && nodes[k] == n;
      assert nodes[0].innovation != nodes[k].innovation;
      assert n in nodes[1..];
      FindNodeOfMember(nodes[1..], n);
    }
  }

  lemma SameIdSameNode(nodes: seq<Node>, a: Node, b: Node)
    requires UniqueNodeIds(nodes) && a in nodes && b in nodes && a.innovation == b.innovation
    ensures a == b
  {
    FindNodeOfMember(nodes, a);
    FindNodeOfMember(nodes, b);
  }

  /** Appending a node changes no lookup that already succeeded. */
  lemma {:induction false} FindNodeSnoc(nodes: seq<Node>, x: Node, id: nat)
    ensures FindNode(nodes + [x], id)
         == if FindNode(nodes, id).Some? then FindNode(nodes, id)
            else if x.innovation == id then Some(x) else None
  {
    if |nodes| > 0 {
      assert (nodes + [x])[1..] == nodes[1..] + [x];
      FindNodeSnoc(nodes[1..], x, id);
    }
  }

  /** Under the invariant no connection leaves an OUTPUT or enters an INPUT:
      OUTPUTs sit on the top layer and INPUTs on the bottom one. */
  lemma EdgesRespectRoles(g: GenomeState)
    requires Inv(g)
    ensures forall c :: c in g.connections ==>
      FindNode(g.nodes, c.input).Some? && FindNode(g.nodes, c.input).value.nodeType != OUTPUT
      && FindNode(g.nodes, c.output).Some? && FindNode(g.nodes, c.output).value.nodeType != INPUT
  {
    forall c | c in g.connections
      ensures FindNode(g.nodes, c.input).Some? && FindNode(g.nodes, c.input).value.nodeType != OUTPUT
      ensures FindNode(g.nodes, c.output).Some? && FindNode(g.nodes, c.output).value.nodeType != INPUT
    {
      assert Wired(g.nodes, c);
      assert LayerFits(FindNode(g.nodes, c.input).value);
      assert LayerFits(FindNode(g.nodes, c.output).value);
    }
  }

  /** Under the invariant every endpoint is the id of a node, hence below the counter. */
  lemma EndpointsBelowCounter(g: GenomeState, c: Connection)
    requires Inv(g) && c in g.connections
    ensures c.input < g.counter && c.output < g.counter
    ensures FindNode(g.nodes, c.input).value.layer < FindNode(g.nodes, c.output).value.layer
  {
    assert Wired(g.nodes, c);
  }

  // ---------------------------------------------------------------------------
  // Construction

  lemma InitialNodesIndexed(n: nat, m: nat)
    ensures var nodes := InputNodes(n) + OutputNodes(n, m);
      |nodes| == n + m
      && (forall i :: 0 <= i < n + m ==> nodes[i].innovation == i)
      && (forall i :: 0 <= i < n ==> nodes[i] == Node(i, INPUT, 0.0))
      && (forall i :: n <= i < n + m ==> nodes[i] == Node(i, OUTPUT, 1.0))
  {
  }

  /** Selecting the INPUTs and the OUTPUTs of a fresh node list gives back its two halves. */
  lemma InitialNodesByType(n: nat, m: nat)
    ensures NodesOfType(InputNodes(n) + OutputNodes(n, m), INPUT) == InputNodes(n)
    ensures NodesOfType(InputNodes(n) + OutputNodes(n, m), OUTPUT) == OutputNodes(n, m)
  {
    var isInput := (x: Node) => x.nodeType == INPUT;
    var isOutput := (x: Node) => x.nodeType == OUTPUT;
    FilterAppend(InputNodes(n), OutputNodes(n, m), isInput);
    FilterAppend(InputNodes(n), OutputNodes(n, m), isOutput);
    FilterAll(InputNodes(n), isInput);
    FilterNone(OutputNodes(n, m), isInput);
    FilterNone(InputNodes(n), isOutput);
    FilterAll(OutputNodes(n, m), isOutput);
  }

  /** The node lists grow one node per iteration of the construction loops. */
  lemma InitialNodesSnoc(n: nat, i: nat, j: nat)
    ensures InputNodes(i + 1) == InputNodes(i) + [Node(i, INPUT, 0.0)]
    ensures OutputNodes(n, j + 1) == OutputNodes(n, j) + [Node(n + j, OUTPUT, 1.0)]
  {
  }

  /** Popping the last remaining element of each shuffled list, when `k`
      pairs have been popped already, yields the `k`-th initial connection. */
  lemma InitialWiringStep(n: nat, m: nat, inOrder: seq<nat>, outOrder: seq<nat>, k: nat, inputs: seq<Node>, outputs: seq<Node>)
    requires IsPermutation(inOrder, n) && IsPermutation(outOrder, m) && k < n && k < m
    requires inputs == Shuffled(InputNodes(n), inOrder)[..n - k]
    requires outputs == Shuffled(OutputNodes(n, m), outOrder)[..m - k]
    ensures var w := InitialConnections(n, m, inOrder, outOrder);
      w[..k + 1] == w[..k] + [Connection(inputs[|inputs| - 1].innovation, outputs[|outputs| - 1].innovation, n + m + k, true)]
    ensures inputs[..|inputs| - 1] == Shuffled(InputNodes(n), inOrder)[..n - (k + 1)]
    ensures outputs[..|outputs| - 1] == Shuffled(OutputNodes(n, m), outOrder)[..m - (k + 1)]
  {
    var w := InitialConnections(n, m, inOrder, outOrder);
    assert w[..k + 1] == w[..k] + [w[k]];
  }

  /** The numbers below `n`. */
  function Below(n: nat): (r: set<nat>)
    ensures forall x: nat :: x in r <==> x < n
  {
    if n == 0 then {} else Below(n - 1) + {n - 1}
  }

  lemma {:induction false} BelowCardinality(n: nat)
    ensures |Below(n)| == n
  {
    if n > 0 {
      BelowCardinality(n - 1);
    }
  }

  /** A shuffle contains every position of the list it shuffles. */
  lemma PermutationCovers(order: seq<nat>, n: nat, x: nat)
    requires IsPermutation(order, n) && x < n
    ensures x in order
  {
    BelowCardinality(n);
    DistinctCardinality(order);
    if x !in order {
      assert Elements(order) <= Below(n) - {x};
      SubsetCardinality(Elements(order), Below(n) - {x});
    }
  }

  lemma {:induction false} SubsetCardinality<T>(a: set<T>, b: set<T>)
    requires a <= b
    ensures |a| <= |b|
  {
    if a != {} {
      var x :| x in a;
      SubsetCardinality(a - {x}, b - {x});
    }
  }

  /** The `j`-th initial connection joins input `inOrder[n - 1 - j]` to output `outOrder[m - 1 - j]`. */
  lemma InitialConnectionAt(n: nat, m: nat, inOrder: seq<nat>, outOrder: seq<nat>, j: nat)
    requires IsPermutation(inOrder, n) && IsPermutation(outOrder, m) && j < Min(n, m)
    ensures var c := InitialConnections(n, m, inOrder, outOrder)[j];
      c.input == inOrder[n - 1 - j] && c.input < n
      && c.output == n + outOrder[m - 1 - j] && n <= c.output < n + m
      && c.innovation == n + m + j && c.enabled
  {
  }

  /** A fresh genome satisfies the invariant. */
  lemma InitialGenomeValid(n: nat, m: nat, inOrder: seq<nat>, outOrder: seq<nat>)
    requires IsPermutation(inOrder, n) && IsPermutation(outOrder, m)
    ensures Inv(InitialGenome(n, m, inOrder, outOrder))
  {
    InitialIdsAndLayers(n, m, inOrder, outOrder);
    InitialFeedForward(n, m, inOrder, outOrder);
    InitialPairsDistinct(n, m, inOrder, outOrder);
    InitialSingleDriven(n, m, inOrder, outOrder);
  }

  lemma InitialIdsAndLayers(n: nat, m: nat, inOrder: seq<nat>, outOrder: seq<nat>)
    requires IsPermutation(inOrder, n) && IsPermutation(outOrder, m)
    ensures Layered(InitialGenome(n, m, inOrder, outOrder).nodes) && IdsFresh(InitialGenome(n, m, inOrder, outOrder))
  {
    var g := InitialGenome(n, m, inOrder, outOrder);
    InitialNodesIndexed(n, m);
    forall j | 0 <= j < |g.connections|
      ensures g.connections[j].innovation == n + m + j
    {
      InitialConnectionAt(n, m, inOrder, outOrder, j);
    }
  }

  lemma InitialFeedForward(n: nat, m: nat, inOrder: seq<nat>, outOrder: seq<nat>)
    requires IsPermutation(inOrder, n) && IsPermutation(outOrder, m)
    ensures FeedForward(InitialGenome(n, m, inOrder, outOrder))
  {
    var g := InitialGenome(n, m, inOrder, outOrder);
    InitialNodesIndexed(n, m);
    assert UniqueNodeIds(g.nodes);
    forall c | c in g.connections
      ensures Wired(g.nodes, c)
    {
      var j :| 0 <= j < |g.connections| && g.connections[j] == c;
      InitialConnectionAt(n, m, inOrder, outOrder, j);
      FindNodeOfMember(g.nodes, g.nodes[c.input]);
      FindNodeOfMember(g.nodes, g.nodes[c.output]);
    }
  }

  lemma InitialPairsDistinct(n: nat, m: nat, inOrder: seq<nat>, outOrder: seq<nat>)
    requires IsPermutation(inOrder, n) && IsPermutation(outOrder, m)
    ensures NoDuplicatePairs(InitialGenome(n, m, inOrder, outOrder).connections)
  {
    var cs := InitialGenome(n, m, inOrder, outOrder).connections;
    forall i, j | 0 <= i < j < |cs|
      ensures cs[i].input != cs[j].input
    {
      InitialConnectionAt(n, m, inOrder, outOrder, i);
      InitialConnectionAt(n, m, inOrder, outOrder, j);
      assert inOrder[n - 1 - j] != inOrder[n - 1 - i];
    }
  }

  lemma InitialSingleDriven(n: nat, m: nat, inOrder: seq<nat>, outOrder: seq<nat>)
    requires IsPermutation(inOrder, n) && IsPermutation(outOrder, m)
    ensures OutputsSingleDriven(InitialGenome(n, m, inOrder, outOrder))
  {
    var g := InitialGenome(n, m, inOrder, outOrder);
    var cs := g.connections;
    forall o | o in g.nodes && o.nodeType == OUTPUT
      ensures |IncomingEnabled(cs, o.innovation)| <= 1
    {
      forall i, j | 0 <= i < |cs| && 0 <= j < |cs| && cs[i].output == o.innovation && cs[j].output == o.innovation
        ensures i == j
      {
        InitialConnectionAt(n, m, inOrder, outOrder, i);
        InitialConnectionAt(n, m, inOrder, outOrder, j);
        assert outOrder[m - 1 - i] == outOrder[m - 1 - j];
      }
      FilterAtMostOne(cs, (c: Connection) => c.output == o.innovation && c.enabled);
    }
  }

  /** What construction produces: min(n, m) enabled INPUT -> OUTPUT wires, no
      input or output used twice, and a counter that has issued one number per
      node and per wire. */
  lemma InitialGenomeWiring(n: nat, m: nat, inOrder: seq<nat>, outOrder: seq<nat>)
    requires IsPermutation(inOrder, n) && IsPermutation(outOrder, m)
    ensures var g := InitialGenome(n, m, inOrder, outOrder);
      |g.nodes| == n + m && |g.connections| == Min(n, m) && g.counter == n + m + Min(n, m)
      && (forall c :: c in g.connections ==>
            c.enabled
            && FindNode(g.nodes, c.input) == Some(Node(c.input, INPUT, 0.0))
            && FindNode(g.nodes, c.output) == Some(Node(c.output, OUTPUT, 1.0)))
      && (forall i, j :: 0 <= i < j < |g.connections| ==>
            g.connections[i].input != g.connections[j].input && g.connections[i].output != g.connections[j].output)
  {
    var g := InitialGenome(n, m, inOrder, outOrder);
    InitialNodesIndexed(n, m);
    assert UniqueNodeIds(g.nodes);
    forall c | c in g.connections
      ensures FindNode(g.nodes, c.input) == Some(Node(c.input, INPUT, 0.0))
      ensures FindNode(g.nodes, c.output) == Some(Node(c.output, OUTPUT, 1.0))
    {
      FindNodeOfMember(g.nodes, g.nodes[c.input]);
      FindNodeOfMember(g.nodes, g.nodes[c.output]);
    }
    forall i, j | 0 <= i < j < |g.connections|
      ensures g.connections[i].input != g.connections[j].input
      ensures g.connections[i].output != g.connections[j].output
    {
      assert inOrder[n - 1 - i] != inOrder[n - 1 - j];
      assert outOrder[m - 1 - i] != outOrder[m - 1 - j];
    }
  }

  /** With at least as many inputs as outputs every OUTPUT is wired, so a
      fresh genome is ready for expression building. */
  lemma InitialGenomeComplete(n: nat, m: nat, inOrder: seq<nat>, outOrder: seq<nat>)
    requires IsPermutation(inOrder, n) && IsPermutation(outOrder, m)
    requires n >= m
    ensures Complete(InitialGenome(n, m, inOrder, outOrder))
  {
    var g := InitialGenome(n, m, inOrder, outOrder);
    InitialNodesIndexed(n, m);
    forall o | o in g.nodes && o.nodeType == OUTPUT
      ensures |IncomingEnabled(g.connections, o.innovation)| == 1
    {
      var x := o.innovation - n;
      PermutationCovers(outOrder, m, x);
      var p :| 0 <= p < m && outOrder[p] == x;
      var i := m - 1 - p;
      forall j | 0 <= j < |g.connections| && j != i
        ensures !(g.connections[j].output == o.innovation && g.connections[j].enabled)
      {
        assert outOrder[m - 1 - j] != outOrder[m - 1 - i];
      }
      FilterSingleton(g.connections, (c: Connection) => c.output == o.innovation && c.enabled, i);
    }
  }

  // ---------------------------------------------------------------------------
  // In-degree bookkeeping

  lemma IncomingSnoc(cs: seq<Connection>, c: Connection, id: nat)
    ensures IncomingEnabled(cs + [c], id)
         == IncomingEnabled(cs, id) + (if c.output == id && c.enabled then [c] else [])
  {
    FilterSnoc(cs, c, (c: Connection) => c.output == id && c.enabled);
  }

  // ---------------------------------------------------------------------------
  // The add-connection mutation

  /** The accepted draw is the first sample that is accepted; no sample is
      accepted exactly when the retry budget runs out. */
  lemma {:induction false} FirstAcceptedIsFirst(g: GenomeState, valid: seq<Node>, samples: seq<(nat, nat)>)
    requires SamplesFit(samples, |valid|)
    ensures FirstAccepted(g, valid, samples).None?
        <==> forall k :: 0 <= k < |samples| ==> Attempt(g, valid[samples[k].0], valid[samples[k].1]).None?
    ensures FirstAccepted(g, valid, samples).Some? ==>
      exists k :: 0 <= k < |samples|
        && Attempt(g, valid[samples[k].0], valid[samples[k].1]) == FirstAccepted(g, valid, samples)
        && forall j :: 0 <= j < k ==> Attempt(g, valid[samples[j].0], valid[samples[j].1]).None?
  {
    if |samples| > 0 {
      var rest := samples[1..];
      FirstAcceptedIsFirst(g, valid, rest);
      if Attempt(g, valid[samples[0].0], valid[samples[0].1]).None? {
        assert forall k :: 1 <= k < |samples| ==> samples[k] == rest[k - 1];
        if FirstAccepted(g, valid, rest).Some? {
          var k :| 0 <= k < |rest|
            && Attempt(g, valid[rest[k].0], valid[rest[k].1]) == FirstAccepted(g, valid, rest)
            && forall j :: 0 <= j < k ==> Attempt(g, valid[rest[j].0], valid[rest[j].1]).None?;
          assert samples[k + 1] == rest[k];
          forall j | 0 <= j < k + 1
            ensures Attempt(g, valid[samples[j].0], valid[samples[j].1]).None?
          {
            if j > 0 {
              assert samples[j] == rest[j - 1];
            }
          }
        }
      }
    }
  }

  /** An accepted draw runs from the lower of the two sampled layers to the
      higher, takes the current counter as its innovation and is a new pair. */
  lemma AttemptSound(g: GenomeState, a: Node, b: Node)
    requires Attempt(g, a, b).Some?
    ensures var c := Attempt(g, a, b).value;
      c.innovation == g.counter && c.enabled && !HasPair(g.connections, c.input, c.output)
      && ((c.input == a.innovation && c.output == b.innovation && a.layer < b.layer)
          || (c.input == b.innovation && c.output == a.innovation && b.layer < a.layer))
  {
  }

  /** A successful add-connection appends exactly one enabled edge, between two
      non-OUTPUT nodes of the genome, climbing strictly in layer, whose pair was
      not present (enabled or not), numbered with the old counter; nothing
      else changes but the counter, which rises by one. */
  lemma AddConnectionAccepted(g: GenomeState, samples: seq<(nat, nat)>)
    requires SamplesFit(samples, |NonOutputNodes(g.nodes)|)
    requires AddConnectionSpec(g, samples).1 == Connected
    ensures exists from: Node, to: Node ::
      from in g.nodes && to in g.nodes && from.nodeType != OUTPUT && to.nodeType != OUTPUT
      && from.layer < to.layer && !HasPair(g.connections, from.innovation, to.innovation)
      && AddConnectionSpec(g, samples).0
         == GenomeState(g.nodes, g.connections + [Connection(from.innovation, to.innovation, g.counter, true)], g.counter + 1)
  {
    var valid := NonOutputNodes(g.nodes);
    FirstAcceptedIsFirst(g, valid, samples);
    var k :| 0 <= k < |samples| && Attempt(g, valid[samples[k].0], valid[samples[k].1]) == FirstAccepted(g, valid, samples);
    var a, b := valid[samples[k].0], valid[samples[k].1];
    AttemptSound(g, a, b);
    assert a in valid && b in valid;
    if a.layer < b.layer {
      assert AddConnectionSpec(g, samples).0
        == GenomeState(g.nodes, g.connections + [Connection(a.innovation, b.innovation, g.counter, true)], g.counter + 1);
    } else {
      assert AddConnectionSpec(g, samples).0
        == GenomeState(g.nodes, g.connections + [Connection(b.innovation, a.innovation, g.counter, true)], g.counter + 1);
    }
  }

  /** When add-connection fails the genome is untouched; it runs out of
      retries exactly when every supplied draw is rejected. */
  lemma AddConnectionRejected(g: GenomeState, samples: seq<(nat, nat)>)
    requires SamplesFit(samples, |NonOutputNodes(g.nodes)|)
    ensures var (h, outcome) := AddConnectionSpec(g, samples);
      var valid := NonOutputNodes(g.nodes);
      (outcome != Connected ==> h == g)
      && (outcome == TooFewCandidates <==> |valid| < 2)
      && (outcome == NoAvailableConnection <==>
            |valid| >= 2 && forall k :: 0 <= k < |samples| ==> Attempt(g, valid[samples[k].0], valid[samples[k].1]).None?)
  {
    FirstAcceptedIsFirst(g, NonOutputNodes(g.nodes), samples);
  }

  /** Add-connection keeps the invariant, and keeps a genome ready for
      expression building. */
  lemma AddConnectionPreservesInv(g: GenomeState, samples: seq<(nat, nat)>)
    requires Inv(g) && SamplesFit(samples, |NonOutputNodes(g.nodes)|)
    ensures Inv(AddConnectionSpec(g, samples).0)
    ensures Complete(g) ==> Complete(AddConnectionSpec(g, samples).0)
  {
    if AddConnectionSpec(g, samples).1 == Connected {
      AddConnectionAccepted(g, samples);
      var from: Node, to: Node :|
        from in g.nodes && to in g.nodes && from.nodeType != OUTPUT && to.nodeType != OUTPUT
        && from.layer < to.layer && !HasPair(g.connections, from.innovation, to.innovation)
        && AddConnectionSpec(g, samples).0
           == GenomeState(g.nodes, g.connections + [Connection(from.innovation, to.innovation, g.counter, true)], g.counter + 1);
      AppendEdgeKeepsInv(g, from, to);
    }
  }

  /** Appending a new, upward edge into a non-OUTPUT node keeps the invariant. */
  lemma AppendEdgeKeepsInv(g: GenomeState, from: Node, to: Node)
    requires Inv(g) && from in g.nodes && to in g.nodes && to.nodeType != OUTPUT
    requires from.layer < to.layer && !HasPair(g.connections, from.innovation, to.innovation)
    ensures var h := GenomeState(g.nodes, g.connections + [Connection(from.innovation, to.innovation, g.counter, true)], g.counter + 1);
      Inv(h) && (Complete(g) ==> Complete(h))
  {
    var c := Connection(from.innovation, to.innovation, g.counter, true);
    var h := GenomeState(g.nodes, g.connections + [c], g.counter + 1);
    AppendEdgeStructure(g, from, to);
    AppendEdgeInDegrees(g, from, to);
    assert OutputsSingleDriven(h);
  }

  lemma AppendEdgeStructure(g: GenomeState, from: Node, to: Node)
    requires Inv(g) && from in g.nodes && to in g.nodes
    requires from.layer < to.layer && !HasPair(g.connections, from.innovation, to.innovation)
    ensures var h := GenomeState(g.nodes, g.connections + [Connection(from.innovation, to.innovation, g.counter, true)], g.counter + 1);
      FeedForward(h) && IdsFresh(h) && NoDuplicatePairs(h.connections)
  {
    AppendEdgeWired(g, from, to);
    AppendEdgePairs(g.connections, Connection(from.innovation, to.innovation, g.counter, true));
  }

  lemma AppendEdgeWired(g: GenomeState, from: Node, to: Node)
    requires FeedForward(g) && UniqueNodeIds(g.nodes) && from in g.nodes && to in g.nodes && from.layer < to.layer
    ensures FeedForward(GenomeState(g.nodes, g.connections + [Connection(from.innovation, to.innovation, g.counter, true)], g.counter + 1))
  {
    FindNodeOfMember(g.nodes, from);
    FindNodeOfMember(g.nodes, to);
    assert Wired(g.nodes, Connection(from.innovation, to.innovation, g.counter, true));
  }

  lemma AppendEdgePairs(cs: seq<Connection>, c: Connection)
    requires NoDuplicatePairs(cs) && !HasPair(cs, c.input, c.output)
    ensures NoDuplicatePairs(cs + [c])
  {
    var h := cs + [c];
    forall i, j | 0 <= i < j < |h|
      ensures h[i].input != h[j].input || h[i].output != h[j].output
    {
      if j == |cs| {
        assert h[i] == cs[i];
      }
    }
  }

  lemma AppendEdgeInDegrees(g: GenomeState, from: Node, to: Node)
    requires Inv(g) && to in g.nodes
    ensures forall n :: n in g.nodes ==>
      |IncomingEnabled(g.connections + [Connection(from.innovation, to.innovation, g.counter, true)], n.innovation)|
      == |IncomingEnabled(g.connections, n.innovation)| + (if n == to then 1 else 0)
  {
    var c := Connection(from.innovation, to.innovation, g.counter, true);
    forall n | n in g.nodes
      ensures |IncomingEnabled(g.connections + [c], n.innovation)|
           == |IncomingEnabled(g.connections, n.innovation)| + (if n == to then 1 else 0)
    {
      IncomingSnoc(g.connections, c, n.innovation);
      if n.innovation == to.innovation {
        SameIdSameNode(g.nodes, n, to);
      }
    }
  }

  // ---------------------------------------------------------------------------
  // The add-node mutation

  /** The split edge's endpoints exist and the midpoint lies strictly between
      their layers, inside (0, 1). */
  lemma SpliceLayerBetween(g: GenomeState, idx: nat)
    requires Inv(g) && idx < |g.connections|
    ensures var c := g.connections[idx];
      FindNode(g.nodes, c.input).Some? && FindNode(g.nodes, c.output).Some?
      && 0.0 <= FindNode(g.nodes, c.input).value.layer < SpliceLayer(g, idx)
      && SpliceLayer(g, idx) < FindNode(g.nodes, c.output).value.layer <= 1.0
      && c.input < g.counter && c.output < g.counter
  {
    var c := g.connections[idx];
    assert c in g.connections;
    assert Wired(g.nodes, c);
    assert LayerFits(FindNode(g.nodes, c.input).value);
    assert LayerFits(FindNode(g.nodes, c.output).value);
  }

  /** What a split may assume about its new node and its third input. */
  ghost predicate SpliceArgs(g: GenomeState, idx: nat, v: Node, third: Option<Node>)
    requires Inv(g)
  {
    idx < |g.connections| && g.connections[idx].enabled
    && v.innovation == g.counter && v.nodeType.IsGate() && v.layer == SpliceLayer(g, idx)
    && (third.Some? ==>
          third.value in g.nodes && third.value.layer < v.layer
          && third.value.innovation != g.connections[idx].input)
  }

  /** The connections after a split: the old ones with only the split one
      disabled, then the new ones numbered from the counter plus one. */
  lemma SplicedConnections(g: GenomeState, idx: nat, v: Node, third: Option<Node>)
    requires idx < |g.connections|
    ensures var h := SplicedState(g, idx, v, third);
      var n := |g.connections|;
      |h.connections| == n + (if third.Some? then 3 else 2)
      && h.counter == g.counter + 1 + |h.connections| - n
      && h.nodes == g.nodes + [v]
      && (forall k :: 0 <= k < n && k != idx ==> h.connections[k] == g.connections[k])
      && h.connections[idx] == g.connections[idx].(enabled := false)
      && (forall k :: n <= k < |h.connections| ==> h.connections[k].innovation == g.counter + 1 + (k - n) && h.connections[k].enabled)
  {
  }

  lemma SpliceKeepsLayersAndIds(g: GenomeState, idx: nat, v: Node, third: Option<Node>)
    requires idx < |g.connections| && Layered(g.nodes) && IdsFresh(g)
    requires v.innovation == g.counter && LayerFits(v)
    ensures Layered(SplicedState(g, idx, v, third).nodes) && IdsFresh(SplicedState(g, idx, v, third))
  {
    var h := SplicedState(g, idx, v, third);
    assert h.nodes == g.nodes + [v];
    assert forall x :: x in h.nodes ==> x in g.nodes || x == v;
    SpliceConnectionIds(g, idx, v, third);
  }

  lemma SpliceConnectionIds(g: GenomeState, idx: nat, v: Node, third: Option<Node>)
    requires idx < |g.connections| && IdsFresh(g) && v.innovation == g.counter
    ensures var h := SplicedState(g, idx, v, third);
      (forall i, j :: 0 <= i < j < |h.connections| ==> h.connections[i].innovation != h.connections[j].innovation)
      && (forall e :: e in h.connections ==>
            e.innovation < h.counter && e.innovation != v.innovation
            && forall x :: x in g.nodes ==> x.innovation != e.innovation)
  {
    SplicedConnections(g, idx, v, third);
    var h := SplicedState(g, idx, v, third);
    var n := |g.connections|;
    assert forall k :: 0 <= k < n ==> h.connections[k].innovation == g.connections[k].innovation;
    assert forall k :: 0 <= k < n ==> g.connections[k] in g.connections;
    forall e | e in h.connections
      ensures e.innovation < h.counter && e.innovation != v.innovation
      ensures forall x :: x in g.nodes ==> x.innovation != e.innovation
    {
      var k :| 0 <= k < |h.connections| && h.connections[k] == e;
    }
  }

  /** An edge between existing nodes stays wired when a node with a fresh id is appended. */
  lemma WiredSnoc(nodes: seq<Node>, v: Node, e: Connection)
    requires Wired(nodes, e) && FindNode(nodes, v.innovation).None?
    ensures Wired(nodes + [v], e)
  {
    FindNodeSnoc(nodes, v, e.input);
    FindNodeSnoc(nodes, v, e.output);
  }

  /** The layer facts a split relies on: the new node lies strictly between
      the ends of the split edge, and the third input strictly below it. */
  ghost predicate SpliceFits(g: GenomeState, idx: nat, v: Node, third: Option<Node>)
    requires idx < |g.connections|
  {
    var conn := g.connections[idx];
    FindNode(g.nodes, conn.input).Some? && FindNode(g.nodes, conn.output).Some?
    && FindNode(g.nodes, conn.input).value.layer < v.layer < FindNode(g.nodes, conn.output).value.layer
    && (third.Some? ==> third.value in g.nodes && third.value.layer < v.layer)
  }

  lemma SpliceKeepsFeedForward(g: GenomeState, idx: nat, v: Node, third: Option<Node>)
    requires idx < |g.connections| && FeedForward(g) && UniqueNodeIds(g.nodes)
    requires FindNode(g.nodes, v.innovation).None? && SpliceFits(g, idx, v, third)
    ensures FeedForward(SplicedState(g, idx, v, third))
  {
    var h := SplicedState(g, idx, v, third);
    forall e | e in h.connections
      ensures Wired(h.nodes, e)
    {
      var k :| 0 <= k < |h.connections| && h.connections[k] == e;
      SplicedEdgeWired(g, idx, v, third, k);
    }
  }

  lemma SplicedEdgeWired(g: GenomeState, idx: nat, v: Node, third: Option<Node>, k: nat)
    requires idx < |g.connections| && FeedForward(g) && UniqueNodeIds(g.nodes)
    requires FindNode(g.nodes, v.innovation).None? && SpliceFits(g, idx, v, third)
    requires k < |SplicedState(g, idx, v, third).connections|
    ensures Wired(SplicedState(g, idx, v, third).nodes, SplicedState(g, idx, v, third).connections[k])
  {
    var h := SplicedState(g, idx, v, third);
    var conn := g.connections[idx];
    var n := |g.connections|;
    var e := h.connections[k];
    assert h.nodes == g.nodes + [v];
    FindNodeSnoc(g.nodes, v, v.innovation);
    if k < n {
      var before := g.connections[k];
      assert before in g.connections;
      WiredSnoc(g.nodes, v, before);
      assert e.input == before.input && e.output == before.output;
    } else if k == n {
      FindNodeSnoc(g.nodes, v, conn.input);
    } else if k == n + 1 {
      FindNodeSnoc(g.nodes, v, conn.output);
    } else {
      var t := third.value;
      FindNodeOfMember(g.nodes, t);
      FindNodeSnoc(g.nodes, v, t.innovation);
    }
  }

  lemma SpliceKeepsPairsDistinct(g: GenomeState, idx: nat, v: Node, third: Option<Node>)
    requires idx < |g.connections| && NoDuplicatePairs(g.connections) && v.innovation == g.counter
    requires forall e :: e in g.connections ==> e.input < g.counter && e.output < g.counter
    requires third.Some? ==> third.value.innovation != g.connections[idx].input
    ensures NoDuplicatePairs(SplicedState(g, idx, v, third).connections)
  {
    var h := SplicedState(g, idx, v, third);
    var n := |g.connections|;
    forall i, j | 0 <= i < j < |h.connections|
      ensures h.connections[i].input != h.connections[j].input || h.connections[i].output != h.connections[j].output
    {
      if j >= n && i < n {
        var e := g.connections[i];
        assert e in g.connections;
        assert h.connections[i].input == e.input && h.connections[i].output == e.output;
      }
    }
  }

  lemma SpliceTailIncoming(g: GenomeState, idx: nat, v: Node, third: Option<Node>, id: nat)
    requires idx < |g.connections|
    ensures var conn := g.connections[idx];
      IncomingEnabled(SpliceTail(g, idx, v, third), id)
      == (if id == v.innovation then [Connection(conn.input, v.innovation, g.counter + 1, true)] else [])
         + (if id == conn.output then [Connection(v.innovation, conn.output, g.counter + 2, true)] else [])
         + (if third.Some? && id == v.innovation then [Connection(third.value.innovation, v.innovation, g.counter + 3, true)] else [])
  {
    var conn := g.connections[idx];
    var c1 := Connection(conn.input, v.innovation, g.counter + 1, true);
    var c2 := Connection(v.innovation, conn.output, g.counter + 2, true);
    var rest: seq<Connection> := if third.Some? then [Connection(third.value.innovation, v.innovation, g.counter + 3, true)] else [];
    var p := (c: Connection) => c.output == id && c.enabled;
    assert SpliceTail(g, idx, v, third) == [c1, c2] + rest;
    FilterTwoThen(c1, c2, rest, p);
    if third.Some? {
      FilterOne(rest[0], p);
    }
  }

  /** Every endpoint is below the counter. */
  lemma AllEndpointsBelowCounter(g: GenomeState)
    requires Inv(g)
    ensures forall e :: e in g.connections ==> e.input < g.counter && e.output < g.counter
  {
    forall e | e in g.connections
      ensures e.input < g.counter && e.output < g.counter
    {
      EndpointsBelowCounter(g, e);
    }
  }

  /** A split leaves the in-degree of every old node as it was. */
  lemma SpliceInDegreesOld(g: GenomeState, idx: nat, v: Node, third: Option<Node>, id: nat)
    requires idx < |g.connections| && g.connections[idx].enabled && id != v.innovation
    ensures |IncomingEnabled(SplicedState(g, idx, v, third).connections, id)|
         == |IncomingEnabled(g.connections, id)|
  {
    SpliceTailIncoming(g, idx, v, third, id);
    var conn := g.connections[idx];
    var d := conn.(enabled := false);
    var base := g.connections[idx := d];
    var p := (c: Connection) => c.output == id && c.enabled;
    FilterUpdateCount(g.connections, idx, d, p);
    FilterAppend(base, SpliceTail(g, idx, v, third), p);
  }

  /** The new node is fed by the old source and, when there is one, by the third input. */
  lemma SpliceInDegreeNew(g: GenomeState, idx: nat, v: Node, third: Option<Node>)
    requires idx < |g.connections| && v.innovation == g.counter
    requires forall e :: e in g.connections ==> e.output < g.counter
    ensures IncomingEnabled(SplicedState(g, idx, v, third).connections, v.innovation)
         == [Connection(g.connections[idx].input, v.innovation, g.counter + 1, true)]
            + (if third.Some? then [Connection(third.value.innovation, v.innovation, g.counter + 3, true)] else [])
  {
    SpliceTailIncoming(g, idx, v, third, v.innovation);
    var conn := g.connections[idx];
    var base := g.connections[idx := conn.(enabled := false)];
    var p := (c: Connection) => c.output == v.innovation && c.enabled;
    forall e | e in base
      ensures !p(e)
    {
      var k :| 0 <= k < |base| && base[k] == e;
      assert g.connections[k] in g.connections;
    }
    FilterNone(base, p);
    FilterAppend(base, SpliceTail(g, idx, v, third), p);
  }

  /** After a split every old node keeps its in-degree and the new node has
      one or two enabled inputs. */
  lemma SpliceInDegrees(g: GenomeState, idx: nat, v: Node, third: Option<Node>)
    requires idx < |g.connections| && g.connections[idx].enabled && v.innovation == g.counter
    requires forall e :: e in g.connections ==> e.output < g.counter
    requires forall x :: x in g.nodes ==> x.innovation < g.counter
    ensures var h := SplicedState(g, idx, v, third);
      forall x :: x in h.nodes ==>
        (x in g.nodes && |IncomingEnabled(h.connections, x.innovation)| == |IncomingEnabled(g.connections, x.innovation)|)
        || (x == v && |IncomingEnabled(h.connections, x.innovation)| == if third.Some? then 2 else 1)
  {
    var h := SplicedState(g, idx, v, third);
    SpliceInDegreeNew(g, idx, v, third);
    forall x | x in h.nodes && x != v
      ensures x in g.nodes
      ensures |IncomingEnabled(h.connections, x.innovation)| == |IncomingEnabled(g.connections, x.innovation)|
    {
      assert x in g.nodes + [v];
      SpliceInDegreesOld(g, idx, v, third, x.innovation);
    }
  }

  /** A split, finished or left without its third input, keeps the invariant;
      a finished split also keeps a genome ready for expression building. */
  lemma SpliceKeepsInv(g: GenomeState, idx: nat, v: Node, third: Option<Node>)
    requires Inv(g) && SpliceArgs(g, idx, v, third)
    ensures Inv(SplicedState(g, idx, v, third))
    ensures third.Some? && Complete(g) ==> Complete(SplicedState(g, idx, v, third))
  {
    SpliceArgsFacts(g, idx, v, third);
    SpliceKeepsLayersAndIds(g, idx, v, third);
    SpliceKeepsFeedForward(g, idx, v, third);
    SpliceKeepsPairsDistinct(g, idx, v, third);
    SpliceKeepsDegrees(g, idx, v, third);
  }

  /** OUTPUTs stay singly driven; gates keep two or more inputs when the split is finished. */
  lemma SpliceKeepsDegrees(g: GenomeState, idx: nat, v: Node, third: Option<Node>)
    requires idx < |g.connections| && g.connections[idx].enabled && v.innovation == g.counter && v.nodeType.IsGate()
    requires forall e :: e in g.connections ==> e.output < g.counter
    requires forall x :: x in g.nodes ==> x.innovation < g.counter
    requires OutputsSingleDriven(g)
    ensures OutputsSingleDriven(SplicedState(g, idx, v, third))
    ensures third.Some? && Complete(g) ==> Complete(SplicedState(g, idx, v, third))
  {
    SpliceInDegrees(g, idx, v, third);
  }

  /** The connection add-node splits, the gate it creates and the third input
      it picks, as determined by the random choices. */
  function ChosenIndex(g: GenomeState, connPick: nat): nat
    requires |EnabledIndices(g.connections)| > connPick
  {
    EnabledIndices(g.connections)[connPick]
  }

  /** When an enabled connection exists, add-node changes existing data only by
      disabling the chosen connection, which was enabled; it appends one node
      numbered by the counter and two connections (three when the third input
      is found), enabled and numbered from the counter plus one, and the
      counter rises by one per appended item. */
  lemma AddNodeFrame(g: GenomeState, connPick: nat, gatePick: nat, lowerPick: nat)
    requires Inv(g) && gatePick < |RandomGateTypes| && PicksFit(g, connPick, lowerPick)
    requires |EnabledIndices(g.connections)| > 0
    ensures var (h, outcome) := AddNodeSpec(g, connPick, gatePick, lowerPick);
      var idx := ChosenIndex(g, connPick);
      var n := |g.connections|;
      && outcome != NoEnabledConnection
      && g.connections[idx].enabled
      && |h.nodes| == |g.nodes| + 1 && h.nodes[..|g.nodes|] == g.nodes && h.nodes[|g.nodes|].innovation == g.counter
      && |h.connections| == n + (if outcome == NodeAdded then 3 else 2)
      && h.counter == g.counter + (if outcome == NodeAdded then 4 else 3)
      && (forall k :: 0 <= k < n && k != idx ==> h.connections[k] == g.connections[k])
      && h.connections[idx] == g.connections[idx].(enabled := false)
      && (forall k :: n <= k < |h.connections| ==> h.connections[k].innovation == g.counter + 1 + (k - n) && h.connections[k].enabled)
  {
    AddNodeIsSplice(g, connPick, gatePick, lowerPick);
    var (h, outcome) := AddNodeSpec(g, connPick, gatePick, lowerPick);
    var idx := ChosenIndex(g, connPick);
    var v := Node(g.counter, RandomGateTypes[gatePick], SpliceLayer(g, idx));
    var lower := LowerCandidates(g.nodes, v.layer, g.connections[idx].input);
    var third := if outcome == NoLowerLayerNode then None else Some(lower[lowerPick]);
    SplicedConnections(g, idx, v, third);
    assert (g.nodes + [v])[..|g.nodes|] == g.nodes;
  }

  /** Add-node fails without touching the genome exactly when no connection is
      enabled. Otherwise it splits the chosen enabled connection with a new gate
      numbered by the counter at the midpoint layer, and adds the third input
      exactly when some node other than the old source lies strictly below that
      layer; the third input is such a node. */
  lemma AddNodeIsSplice(g: GenomeState, connPick: nat, gatePick: nat, lowerPick: nat)
    requires Inv(g) && gatePick < |RandomGateTypes| && PicksFit(g, connPick, lowerPick)
    ensures var (h, outcome) := AddNodeSpec(g, connPick, gatePick, lowerPick);
      (outcome == NoEnabledConnection <==> forall c :: c in g.connections ==> !c.enabled)
      && (outcome == NoEnabledConnection ==> h == g)
      && (outcome != NoEnabledConnection ==>
            var idx := ChosenIndex(g, connPick);
            var conn := g.connections[idx];
            var v := Node(g.counter, RandomGateTypes[gatePick], SpliceLayer(g, idx));
            var lower := LowerCandidates(g.nodes, v.layer, conn.input);
            (outcome == NoLowerLayerNode <==> forall n :: n in g.nodes ==> !(n.layer < v.layer && n.innovation != conn.input))
            && var third := if outcome == NoLowerLayerNode then None else Some(lower[lowerPick]);
               SpliceArgs(g, idx, v, third) && h == SplicedState(g, idx, v, third))
  {
    var enabled := EnabledIndices(g.connections);
    if |enabled| > 0 {
      var idx := enabled[connPick];
      var conn := g.connections[idx];
      var v := Node(g.counter, RandomGateTypes[gatePick], SpliceLayer(g, idx));
      assert conn.enabled;
      FilterSnoc(g.nodes, v, (n: Node) => n.layer < v.layer && n.innovation != conn.input);
      var lower := LowerCandidates(g.nodes, v.layer, conn.input);
      if |lower| > 0 {
        assert lower[lowerPick] in lower;
      }
    } else {
      forall c | c in g.connections
        ensures !c.enabled
      {
        var i :| 0 <= i < |g.connections| && g.connections[i] == c;
      }
    }
  }

  /** Add-node keeps the invariant, even when it stops half done; when it
      finishes (or has nothing to split) it keeps a genome ready for
      expression building. */
  lemma AddNodePreservesInv(g: GenomeState, connPick: nat, gatePick: nat, lowerPick: nat)
    requires Inv(g) && gatePick < |RandomGateTypes| && PicksFit(g, connPick, lowerPick)
    ensures var (h, outcome) := AddNodeSpec(g, connPick, gatePick, lowerPick);
      Inv(h) && (Complete(g) && outcome != NoLowerLayerNode ==> Complete(h))
  {
    AddNodeIsSplice(g, connPick, gatePick, lowerPick);
    var (h, outcome) := AddNodeSpec(g, connPick, gatePick, lowerPick);
    if outcome != NoEnabledConnection {
      var idx := ChosenIndex(g, connPick);
      var conn := g.connections[idx];
      var v := Node(g.counter, RandomGateTypes[gatePick], SpliceLayer(g, idx));
      var lower := LowerCandidates(g.nodes, v.layer, conn.input);
      var third := if outcome == NoLowerLayerNode then None else Some(lower[lowerPick]);
      SpliceKeepsInv(g, idx, v, third);
    }
  }

  /** A finished add-node leaves the new gate with exactly two enabled inputs:
      the old source of the split connection and a different, lower node. */
  lemma AddNodeWiresTwoInputs(g: GenomeState, connPick: nat, gatePick: nat, lowerPick: nat)
    requires Inv(g) && gatePick < |RandomGateTypes| && PicksFit(g, connPick, lowerPick)
    requires AddNodeSpec(g, connPick, gatePick, lowerPick).1 == NodeAdded
    ensures var h := AddNodeSpec(g, connPick, gatePick, lowerPick).0;
      var v := h.nodes[|h.nodes| - 1];
      |h.nodes| == |g.nodes| + 1 && v.innovation == g.counter && v.nodeType.IsGate()
      && var ins := IncomingEnabled(h.connections, v.innovation);
         |ins| == 2 && ins[0].input != ins[1].input
         && FindNode(g.nodes, ins[0].input).Some? && FindNode(g.nodes, ins[1].input).Some?
         && FindNode(g.nodes, ins[0].input).value.layer < v.layer
         && FindNode(g.nodes, ins[1].input).value.layer < v.layer
  {
    AddNodeIsSplice(g, connPick, gatePick, lowerPick);
    var idx := ChosenIndex(g, connPick);
    var conn := g.connections[idx];
    var v := Node(g.counter, RandomGateTypes[gatePick], SpliceLayer(g, idx));
    var lower := LowerCandidates(g.nodes, v.layer, conn.input);
    var t := lower[lowerPick];
    SpliceArgsFacts(g, idx, v, Some(t));
    SplicedGateInputs(g, idx, v, t);
  }

  /** The gate of a finished split is fed by the old source and by `t`. */
  lemma SplicedGateInputs(g: GenomeState, idx: nat, v: Node, t: Node)
    requires idx < |g.connections| && v.innovation == g.counter && UniqueNodeIds(g.nodes)
    requires forall e :: e in g.connections ==> e.output < g.counter
    requires SpliceFits(g, idx, v, Some(t)) && t.innovation != g.connections[idx].input
    ensures var h := SplicedState(g, idx, v, Some(t));
      var ins := IncomingEnabled(h.connections, v.innovation);
      |h.nodes| == |g.nodes| + 1 && h.nodes[|h.nodes| - 1] == v
      && |ins| == 2 && ins[0].input == g.connections[idx].input && ins[1].input == t.innovation
      && FindNode(g.nodes, ins[0].input).Some? && FindNode(g.nodes, ins[1].input) == Some(t)
      && FindNode(g.nodes, ins[0].input).value.layer < v.layer
  {
    SpliceInDegreeNew(g, idx, v, Some(t));
    FindNodeOfMember(g.nodes, t);
  }

  /** What the split arguments chosen by add-node give the lemmas above. */
  lemma SpliceArgsFacts(g: GenomeState, idx: nat, v: Node, third: Option<Node>)
    requires Inv(g) && SpliceArgs(g, idx, v, third)
    ensures SpliceFits(g, idx, v, third) && LayerFits(v) && FindNode(g.nodes, v.innovation).None?
    ensures forall e :: e in g.connections ==> e.input < g.counter && e.output < g.counter
    ensures forall x :: x in g.nodes ==> x.innovation < g.counter
  {
    SpliceLayerBetween(g, idx);
    AllEndpointsBelowCounter(g);
  }

  /** With two or more INPUT nodes there is always a third input to pick, so
      add-node never stops half done. */
  lemma TwoInputsNeverStrand(g: GenomeState, connPick: nat, gatePick: nat, lowerPick: nat)
    requires Inv(g) && gatePick < |RandomGateTypes| && PicksFit(g, connPick, lowerPick)
    requires exists i, j :: 0 <= i < j < |g.nodes| && g.nodes[i].nodeType == INPUT && g.nodes[j].nodeType == INPUT
    ensures AddNodeSpec(g, connPick, gatePick, lowerPick).1 != NoLowerLayerNode
  {
    AddNodeIsSplice(g, connPick, gatePick, lowerPick);
    if |EnabledIndices(g.connections)| > 0 {
      var idx := ChosenIndex(g, connPick);
      var conn := g.connections[idx];
      SpliceLayerBetween(g, idx);
      var i, j :| 0 <= i < j < |g.nodes| && g.nodes[i].nodeType == INPUT && g.nodes[j].nodeType == INPUT;
      assert g.nodes[i] in g.nodes && g.nodes[j] in g.nodes;
      var a := if g.nodes[i].innovation != conn.input then g.nodes[i] else g.nodes[j];
      assert a in g.nodes && a.layer < SpliceLayer(g, idx) && a.innovation != conn.input;
    }
  }

  // ---------------------------------------------------------------------------
  // Mutating a fresh genome

  /** When every candidate sits in one layer, no draw is ever accepted. */
  lemma {:induction false} FlatCandidatesNeverConnect(g: GenomeState, valid: seq<Node>, samples: seq<(nat, nat)>)
    requires SamplesFit(samples, |valid|)
    requires forall i :: 0 <= i < |valid| ==> valid[i].layer == 0.0
    ensures FirstAccepted(g, valid, samples) == None
  {
    if |samples| > 0 {
      assert Orient(valid[samples[0].0], valid[samples[0].1], g.counter) == None;
      FlatCandidatesNeverConnect(g, valid, samples[1..]);
    }
  }

  /** On a fresh genome every candidate of add-connection is an INPUT at
      layer 0, so every draw lands in one layer and is retried: the mutation
      never adds a connection, whatever is drawn. */
  lemma FreshGenomeNeverConnects(n: nat, m: nat, inOrder: seq<nat>, outOrder: seq<nat>, samples: seq<(nat, nat)>)
    requires IsPermutation(inOrder, n) && IsPermutation(outOrder, m)
    requires SamplesFit(samples, n)
    ensures var g := InitialGenome(n, m, inOrder, outOrder);
      NonOutputNodes(g.nodes) == InputNodes(n)
      && AddConnectionSpec(g, samples) == (g, if n < 2 then TooFewCandidates else NoAvailableConnection)
  {
    var g := InitialGenome(n, m, inOrder, outOrder);
    var notOutput := (x: Node) => x.nodeType != OUTPUT;
    FilterAppend(InputNodes(n), OutputNodes(n, m), notOutput);
    FilterAll(InputNodes(n), notOutput);
    FilterNone(OutputNodes(n, m), notOutput);
    assert NonOutputNodes(g.nodes) == InputNodes(n);
    FlatCandidatesNeverConnect(g, InputNodes(n), samples);
  }

  /** With a single INPUT, splitting its wire to an OUTPUT leaves no node
      strictly below the new gate other than that INPUT, so add-node stops
      half done. */
  lemma SingleInputStrands(gatePick: nat, lowerPick: nat)
    requires gatePick < |RandomGateTypes|
    ensures var g := InitialGenome(1, 1, [0], [0]);
      Inv(g) && PicksFit(g, 0, lowerPick)
      && AddNodeSpec(g, 0, gatePick, lowerPick).1 == NoLowerLayerNode
  {
    var g := InitialGenome(1, 1, [0], [0]);
    InitialGenomeValid(1, 1, [0], [0]);
    assert g.nodes == [Node(0, INPUT, 0.0), Node(1, OUTPUT, 1.0)];
    assert g.connections == [Connection(0, 1, 2, true)];
    assert EnabledIndices(g.connections) == [0];
    FindNodeOfMember(g.nodes, g.nodes[0]);
    FindNodeOfMember(g.nodes, g.nodes[1]);
    assert SpliceLayer(g, 0) == 0.5;
    var below := (x: Node) => x.layer < 0.5 && x.innovation != 0;
    FilterNone(g.nodes, below);
    assert PicksFit(g, 0, lowerPick);
    AddNodeIsSplice(g, 0, gatePick, lowerPick);
  }
}
