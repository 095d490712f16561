/** The state of a genome as a value, its structural invariant, and the three
    operations that build and mutate it, written as functions of the old state
    and of the random choices (which the caller supplies). The class in module
    FfbNeat performs the same steps in place and is specified by these. */
module Genomes {
  import opened Sequences
  import opened Nodes

  /** A genome: nodes and connections in creation order, and the next innovation number. */
  datatype GenomeState = GenomeState(nodes: seq<Node>, connections: seq<Connection>, counter: nat)

  /** The first node whose innovation is `id`, as `[n for n in nodes if ...][0]`. */
  function FindNode(nodes: seq<Node>, id: nat): (r: Option<Node>)
    ensures r.Some? ==> r.value in nodes && r.value.innovation == id
    ensures r.None? ==> forall n :: n in nodes ==> n.innovation != id
  {
    if |nodes| == 0 then None
    else if nodes[0].innovation == id then Some(nodes[0])
    else FindNode(nodes[1..], id)
  }

  // ---------------------------------------------------------------------------
  // The invariant

  /** INPUT at layer 0, OUTPUT at layer 1, every gate strictly between. */
  ghost predicate LayerFits(n: Node) {
    match n.nodeType
    case INPUT => n.layer == 0.0
    case OUTPUT => n.layer == 1.0
    case _ => 0.0 < n.layer < 1.0
  }

  ghost predicate Layered(nodes: seq<Node>) {
    forall n :: n in nodes ==> LayerFits(n)
  }

  ghost predicate UniqueNodeIds(nodes: seq<Node>) {
    forall i, j :: 0 <= i < j < |nodes| ==> nodes[i].innovation != nodes[j].innovation
  }

  /** Node and connection innovations are pairwise distinct and all below the counter. */
  ghost predicate IdsFresh(g: GenomeState) {
    UniqueNodeIds(g.nodes)
    && (forall i, j :: 0 <= i < j < |g.connections| ==> g.connections[i].innovation != g.connections[j].innovation)
    && (forall n, c :: n in g.nodes && c in g.connections ==> n.innovation != c.innovation)
    && (forall n :: n in g.nodes ==> n.innovation < g.counter)
    && (forall c :: c in g.connections ==> c.innovation < g.counter)
  }

  /** Both endpoints exist and the edge climbs strictly in layer. */
  ghost predicate Wired(nodes: seq<Node>, c: Connection) {
    FindNode(nodes, c.input).Some? && FindNode(nodes, c.output).Some?
    && FindNode(nodes, c.input).value.layer < FindNode(nodes, c.output).value.layer
  }

  ghost predicate FeedForward(g: GenomeState) {
    forall c :: c in g.connections ==> Wired(g.nodes, c)
  }

  /** No (from, to) pair occurs twice, enabled or not. */
  ghost predicate NoDuplicatePairs(cs: seq<Connection>) {
    forall i, j :: 0 <= i < j < |cs| ==> cs[i].input != cs[j].input || cs[i].output != cs[j].output
  }

  /** The enabled connections into node `id`, in connection order. */
  function IncomingEnabled(cs: seq<Connection>, id: nat): seq<Connection> {
    Filter(cs, (c: Connection) => c.output == id && c.enabled)
  }

  /** An OUTPUT is a wire: it is driven by at most one enabled connection. */
  ghost predicate OutputsSingleDriven(g: GenomeState) {
    forall n :: n in g.nodes && n.nodeType == OUTPUT ==> |IncomingEnabled(g.connections, n.innovation)| <= 1
  }

  /** The structural invariant every operation keeps. */
  ghost predicate Inv(g: GenomeState) {
    Layered(g.nodes) && IdsFresh(g) && FeedForward(g) && NoDuplicatePairs(g.connections) && OutputsSingleDriven(g)
  }

  /** Ready for expression building: every OUTPUT driven exactly once and
      every gate by at least two enabled connections. */
  ghost predicate Complete(g: GenomeState) {
    forall n :: n in g.nodes ==>
      (n.nodeType == OUTPUT ==> |IncomingEnabled(g.connections, n.innovation)| == 1)
      && (n.nodeType.IsGate() ==> |IncomingEnabled(g.connections, n.innovation)| >= 2)
  }

  // ---------------------------------------------------------------------------
  // Construction

  /** `order` describes a shuffle of a list of length `n`: position `i` of the
      shuffled list holds element `order[i]` of the original. */
  ghost predicate IsPermutation(order: seq<nat>, n: nat) {
    |order| == n && (forall i :: 0 <= i < n ==> order[i] < n) && Distinct(order)
  }

  function Shuffled<T>(s: seq<T>, order: seq<nat>): (r: seq<T>)
    requires IsPermutation(order, |s|)
    ensures |r| == |s|
  {
    seq(|s|, i requires 0 <= i < |s| => s[order[i]])
  }

  /** The nodes of kind `t`, in order. */
  function NodesOfType(nodes: seq<Node>, t: NodeType): seq<Node> {
    Filter(nodes, (n: Node) => n.nodeType == t)
  }

  function Min(a: nat, b: nat): nat {
    if a <= b then a else b
  }

  function InputNodes(inputCount: nat): seq<Node> {
    seq(inputCount, i requires 0 <= i < inputCount => Node(i, INPUT, 0.0))
  }

  function OutputNodes(inputCount: nat, outputCount: nat): seq<Node> {
    seq(outputCount, j requires 0 <= j < outputCount => Node(inputCount + j, OUTPUT, 1.0))
  }

  /** The initial wiring: the k-th pair pops the last remaining element of the
      shuffled inputs and of the shuffled outputs, until either runs out. */
  function InitialConnections(inputCount: nat, outputCount: nat, inOrder: seq<nat>, outOrder: seq<nat>): seq<Connection>
    requires IsPermutation(inOrder, inputCount) && IsPermutation(outOrder, outputCount)
  {
    var k := Min(inputCount, outputCount);
    seq(k, j requires 0 <= j < k =>
      Connection(inOrder[inputCount - 1 - j], inputCount + outOrder[outputCount - 1 - j], inputCount + outputCount + j, true))
  }

  /** A new genome with `inputCount` inputs and `outputCount` outputs. */
  function InitialGenome(inputCount: nat, outputCount: nat, inOrder: seq<nat>, outOrder: seq<nat>): GenomeState
    requires IsPermutation(inOrder, inputCount) && IsPermutation(outOrder, outputCount)
  {
    GenomeState(
      InputNodes(inputCount) + OutputNodes(inputCount, outputCount),
      InitialConnections(inputCount, outputCount, inOrder, outOrder),
      inputCount + outputCount + Min(inputCount, outputCount))
  }

  // ---------------------------------------------------------------------------
  // The add-connection mutation

  datatype ConnectionOutcome =
    | Connected
    | TooFewCandidates        // fewer than two nodes to sample from
    | NoAvailableConnection   // every supplied sample was rejected

  /** The nodes a new connection may join: every node but the OUTPUTs. */
  function NonOutputNodes(nodes: seq<Node>): seq<Node> {
    Filter(nodes, (n: Node) => n.nodeType != OUTPUT)
  }

  /** The candidate edge between two sampled nodes, from the lower layer to the
      higher; none when they share a layer. */
  function Orient(a: Node, b: Node, innovation: nat): Option<Connection> {
    if a.layer > b.layer then Some(Connection(b.innovation, a.innovation, innovation, true))
    else if a.layer < b.layer then Some(Connection(a.innovation, b.innovation, innovation, true))
    else None
  }

  predicate HasPair(cs: seq<Connection>, from: nat, to: nat) {
    exists i :: 0 <= i < |cs| && cs[i].input == from && cs[i].output == to
  }

  /** One draw of the retry loop: the oriented edge, unless its pair exists already. */
  function Attempt(g: GenomeState, a: Node, b: Node): Option<Connection> {
    match Orient(a, b, g.counter)
    case None => None
    case Some(c) => if HasPair(g.connections, c.input, c.output) then None else Some(c)
  }

  /** Each sample is two distinct positions in the candidate list. */
  ghost predicate SamplesFit(samples: seq<(nat, nat)>, count: nat) {
    forall k :: 0 <= k < |samples| ==> samples[k].0 < count && samples[k].1 < count && samples[k].0 != samples[k].1
  }

  /** The edge produced by the first accepted sample, if any. */
  function FirstAccepted(g: GenomeState, valid: seq<Node>, samples: seq<(nat, nat)>): Option<Connection>
    requires SamplesFit(samples, |valid|)
  {
    if |samples| == 0 then None
    else match Attempt(g, valid[samples[0].0], valid[samples[0].1])
      case Some(c) => Some(c)
      case None => FirstAccepted(g, valid, samples[1..])
  }

  /** The add-connection mutation, with the random draws given as `samples`
      (which also bound the otherwise unbounded retry loop). */
  function AddConnectionSpec(g: GenomeState, samples: seq<(nat, nat)>): (GenomeState, ConnectionOutcome)
    requires SamplesFit(samples, |NonOutputNodes(g.nodes)|)
  {
    var valid := NonOutputNodes(g.nodes);
    if |valid| < 2 then (g, TooFewCandidates)
    else match FirstAccepted(g, valid, samples)
      case None => (g, NoAvailableConnection)
      case Some(c) => (GenomeState(g.nodes, g.connections + [c], g.counter + 1), Connected)
  }

  // ---------------------------------------------------------------------------
  // The add-node mutation

  datatype NodeOutcome =
    | NodeAdded
    | NoEnabledConnection   // nothing to split: the genome is unchanged
    | NoLowerLayerNode      // no third input: the split is left half done

  /** The positions of the enabled connections, in order. */
  function EnabledIndices(cs: seq<Connection>): (r: seq<nat>)
    ensures forall k :: 0 <= k < |r| ==> r[k] < |cs| && cs[r[k]].enabled
    ensures forall i :: 0 <= i < |cs| && cs[i].enabled ==> i in r
  {
    if |cs| == 0 then []
    else EnabledIndices(cs[..|cs| - 1]) + (if cs[|cs| - 1].enabled then [|cs| - 1] else [])
  }

  /** The midpoint of the layers of the two ends of connection `idx`. */
  function SpliceLayer(g: GenomeState, idx: nat): real
    requires Inv(g) && idx < |g.connections|
  {
    var c := g.connections[idx];
    assert c in g.connections;
    (FindNode(g.nodes, c.input).value.layer + FindNode(g.nodes, c.output).value.layer) / 2.0
  }

  /** The nodes strictly below `layer`, other than node `exclude`. */
  function LowerCandidates(nodes: seq<Node>, layer: real, exclude: nat): seq<Node> {
    Filter(nodes, (n: Node) => n.layer < layer && n.innovation != exclude)
  }

  /** The random choices of add-node are positions in the lists they choose from. */
  ghost predicate PicksFit(g: GenomeState, connPick: nat, lowerPick: nat)
    requires Inv(g)
  {
    var enabled := EnabledIndices(g.connections);
    |enabled| > 0 ==>
      connPick < |enabled|
      && var idx := enabled[connPick];
         var lower := LowerCandidates(g.nodes, SpliceLayer(g, idx), g.connections[idx].input);
         |lower| > 0 ==> lowerPick < |lower|
  }

  /** The connections a split appends: old source -> `v` and `v` -> old
      target, then the third input from `third` when there is one, numbered
      from the counter plus one. */
  function SpliceTail(g: GenomeState, idx: nat, v: Node, third: Option<Node>): seq<Connection>
    requires idx < |g.connections|
  {
    var conn := g.connections[idx];
    [Connection(conn.input, v.innovation, g.counter + 1, true), Connection(v.innovation, conn.output, g.counter + 2, true)]
    + (if third.Some? then [Connection(third.value.innovation, v.innovation, g.counter + 3, true)] else [])
  }

  /** The genome after splitting connection `idx` with node `v`, with or
      without the third input edge from `third`: the split connection is
      disabled, `v` is appended, then the new connections; the counter has
      numbered `v` and each new connection. */
  function SplicedState(g: GenomeState, idx: nat, v: Node, third: Option<Node>): GenomeState
    requires idx < |g.connections|
  {
    GenomeState(
      g.nodes + [v],
      g.connections[idx := g.connections[idx].(enabled := false)] + SpliceTail(g, idx, v, third),
      if third.Some? then g.counter + 4 else g.counter + 3)
  }

  /** The split of connection `idx` by the gate `v`: disable the connection,
      append the gate and the two connections old source -> gate -> old
      target, then the third input from the candidate `lowerPick` exactly when
      some node, the gate included, lies strictly below the gate and is not
      the old source. */
  function SplitSteps(g: GenomeState, idx: nat, v: Node, lowerPick: nat): (GenomeState, NodeOutcome)
    requires idx < |g.connections|
    requires var lower := LowerCandidates(g.nodes + [v], v.layer, g.connections[idx].input);
      |lower| > 0 ==> lowerPick < |lower|
  {
    var lower := LowerCandidates(g.nodes + [v], v.layer, g.connections[idx].input);
    if |lower| == 0 then (SplicedState(g, idx, v, None), NoLowerLayerNode)
    else (SplicedState(g, idx, v, Some(lower[lowerPick])), NodeAdded)
  }

  /** The add-node mutation: disable the chosen enabled connection, add a gate
      at the midpoint layer, wire old source -> gate -> old target, then wire a
      third input from a strictly lower node other than the old source. */
  function AddNodeSpec(g: GenomeState, connPick: nat, gatePick: nat, lowerPick: nat): (GenomeState, NodeOutcome)
    requires Inv(g) && gatePick < |RandomGateTypes| && PicksFit(g, connPick, lowerPick)
  {
    var enabled := EnabledIndices(g.connections);
    if |enabled| == 0 then (g, NoEnabledConnection)
    else
      var idx := enabled[connPick];
      var conn := g.connections[idx];
      var newLayer := SpliceLayer(g, idx);
      var newNode := NewNode(g.counter, newLayer, None, gatePick);
      FilterSnoc(g.nodes, newNode, (n: Node) => n.layer < newLayer && n.innovation != conn.input);
      SplitSteps(g, idx, newNode, lowerPick)
  }
}
