# ffbneat in Dafny

A model of `ffbneat.py`, a NEAT-style genome for feed-forward boolean networks, with proofs about it.
A genome holds:

- a list of nodes: INPUT and OUTPUT terminals, and AND/OR/NAND/NOR gates, each with a real-valued layer;
- a list of directed connections, each enabled or disabled;
- an innovation counter that numbers nodes and connections alike.

The model covers:

- the `Genome` object: its constructor and the `add_connection` and `add_node` mutations;
- the translation of a genome into a boolean expression (`get_input_nodes`, `build_expression`);
- the Graphviz DOT text that `dot_print` writes.

Modules:

- `Sequences`: Python's `filter` and `str.join`.
- `Decimal`: how an f-string prints a non-negative integer, and reading it back.
- `Nodes`: node kinds, nodes, connections, and node creation.
- `Genomes`: the genome state as a value and its structural invariant `Inv`:
  - every connection runs between existing nodes, from a strictly lower layer to a strictly higher one;
  - INPUTs sit at layer 0, OUTPUTs at 1, and gates strictly between;
  - ids are unique and below the counter;
  - no (from, to) pair occurs twice;
  - an OUTPUT has at most one enabled incoming connection.

  `Genomes` also holds each operation as a function of the old state and the random choices.
- `GenomeLemmas`: what each operation does and that it keeps `Inv`.
- `FfbNeat`: the class `Genome`. Its fields are updated in place, step by step, as the object does. Each method is proved equal to its function in `Genomes`.
- `Expressions` and `ExpressionLemmas`: the expression walk and its text. The walk builds an expression tree, and rendering the tree gives the string. It terminates by the number of nodes strictly below the current node, which shrinks under the feed-forward invariant.
- `Dot` and `DotLemmas`: the DOT text, and a reader for it. Reading back the written text recovers every node's id and type and every connection's ends and enabled flag, in order.

Random choices are parameters supplied by the caller:

- the two shuffles of the constructor are permutations;
- the draws of `random.sample` are a finite list of index pairs, which also bounds the retry loop;
- each `random.choice` is an index into the list it chooses from.

Python's exceptions become outcomes, and the state at that moment becomes the result:

- `ValueError` from `random.sample` with fewer than two candidates is `TooFewCandidates`;
- running out of draws is `NoAvailableConnection`;
- `IndexError` on an empty choice of connection is `NoEnabledConnection`;
- `IndexError` on an empty choice of third input is `NoLowerLayerNode`;
- a failed `assert` or a missing node in the expression walk is `None`.

Behaviour of the code worth noting, which the model keeps:

- A negative node count gives no nodes, as `range` does; no error is raised.
- Add-connection never picks an OUTPUT as either endpoint, because `valid_nodes` excludes OUTPUTs.
- Duplicate detection looks at all connections, enabled or not.
- When add-node finds no third input it is not rolled back. The connection stays disabled, and the gate and its two splice connections stay, with the counter raised by 3.
- An OUTPUT is driven by exactly one enabled connection only when there are at least as many inputs as outputs. In general it is driven by at most one.
- The AND keyword is `" AND  "`, with two trailing spaces.

## Model

| member | source | states |
|---|---|---|
| Nodes.NewNode | ffbneat.py:40-50 | a node keeps its id; a given type is kept, and no type gives one of the four gates; an INPUT is forced to layer 0.0 and an OUTPUT to 1.0; a gate keeps the requested layer |
| Genomes.FindNode | ffbneat.py:145-146 | the lookup `[n for n in nodes if n.innovation == id][0]` finds a node with that id, or reports that no node has it |
| Genomes.EnabledIndices | ffbneat.py:141 | the positions listed are exactly those of the enabled connections |
| FfbNeat.Genome.constructor | ffbneat.py:71-101 | the new object's state is `InitialGenome` of the clamped counts and the two shuffles, and it satisfies the invariant |
| FfbNeat.Genome.ConnectInputsToOutputs | ffbneat.py:85-101 | popping from the ends of the two shuffled lists until one runs out leaves exactly the connections and counter of `InitialGenome`, and the invariant |
| GenomeLemmas.InitialGenomeWiring | ffbneat.py:71-101 | n + m nodes; min(n, m) enabled INPUT→OUTPUT connections with no input or output used twice; the counter ends at n + m + min(n, m) |
| GenomeLemmas.InitialNodesIndexed | ffbneat.py:76-83 | INPUTs get ids 0..n-1 at layer 0.0, OUTPUTs get ids n..n+m-1 at layer 1.0 |
| GenomeLemmas.InitialNodesByType | ffbneat.py:89-91 | filtering the fresh nodes by INPUT and by OUTPUT gives back the two halves, in creation order |
| GenomeLemmas.InitialGenomeValid | ffbneat.py:66-101 | a fresh genome satisfies the invariant: layered, feed-forward, ids fresh, no duplicate pair, OUTPUTs driven at most once |
| GenomeLemmas.InitialGenomeComplete | ffbneat.py:85-101 | with at least as many inputs as outputs every OUTPUT is driven by exactly one enabled connection (there are no gates yet) |
| GenomeLemmas.EdgesRespectRoles | ffbneat.py:36-37 | under the invariant no connection enters an INPUT or leaves an OUTPUT |
| FfbNeat.Genome.ConnectionExists | ffbneat.py:124-128 | the scan finds a match exactly when some connection, enabled or not, has the same ends |
| FfbNeat.Genome.AddConnection | ffbneat.py:105-133 | the state and outcome are those of `AddConnectionSpec` on the old state and the draws; the invariant is kept |
| GenomeLemmas.FirstAcceptedIsFirst | ffbneat.py:112-133 | the loop keeps the first accepted draw, after rejecting all draws before it; it keeps none exactly when every draw is rejected |
| GenomeLemmas.AttemptSound | ffbneat.py:113-128 | an accepted draw runs from the strictly lower of the two layers to the higher one, is enabled, is numbered by the counter, and is a new pair; equal layers are never accepted |
| GenomeLemmas.AddConnectionAccepted | ffbneat.py:108-133 | `AddConnectionSpec`, the model of `add_connection`: on success exactly one enabled edge is appended, between two non-OUTPUT nodes, climbing in layer, whose pair was absent; its innovation is the old counter; the counter rises by 1 and nothing else changes |
| GenomeLemmas.AddConnectionRejected | ffbneat.py:108-120 | `AddConnectionSpec` on failure leaves the genome unchanged; there are too few candidates exactly when fewer than two non-OUTPUT nodes exist; the draws run out exactly when every draw is rejected |
| GenomeLemmas.AddConnectionPreservesInv | ffbneat.py:103-104 | add-connection keeps the invariant, and keeps a genome whose OUTPUTs are each driven exactly once and whose gates are each fed at least twice |
| GenomeLemmas.FreshGenomeNeverConnects | ffbneat.py:108-120 | on a fresh genome the candidates are exactly the INPUTs, all at layer 0, so every draw is rejected and nothing is added |
| FfbNeat.Genome.AddNode | ffbneat.py:139-164 | the state and outcome are those of `AddNodeSpec` on the old state and the choices; the invariant is kept |
| FfbNeat.Genome.SplitConnection | ffbneat.py:142-164 | disabling the connection, appending the gate, the two splice connections and (when a lower node exists) the third input gives exactly `SplitSteps` of the old state: the spliced genome `SplicedState`, numbered from the old counter, with outcome `NoLowerLayerNode` when the third input is missing |
| GenomeLemmas.AddNodeFrame | ffbneat.py:141-164 | the only change to existing connections is that the chosen enabled one becomes disabled; one node is appended with the old counter as its id; 3 connections are appended (2 when stranded), enabled and numbered counter+1 onward; the counter rises by 4 (3 when stranded) |
| GenomeLemmas.AddNodeIsSplice | ffbneat.py:139-164 | `AddNodeSpec`, the model of `add_node`, fails, unchanged, exactly when no connection is enabled; otherwise the gate sits at the midpoint layer, and the third input is added exactly when some node other than the old source lies strictly below the gate |
| GenomeLemmas.SpliceLayerBetween | ffbneat.py:145-147 | the midpoint lies strictly between the layers of the spliced connection's ends, within [0, 1] |
| GenomeLemmas.AddNodePreservesInv | ffbneat.py:136-138 | add-node keeps the invariant even when it stops half done; when it finishes it keeps a genome whose OUTPUTs are each driven exactly once and whose gates are each fed at least twice |
| GenomeLemmas.AddNodeWiresTwoInputs | ffbneat.py:155-163 | a finished add-node leaves the new gate with exactly two enabled inputs: distinct existing nodes, both strictly below it |
| GenomeLemmas.TwoInputsNeverStrand | ffbneat.py:160-162 | with two or more INPUT nodes there is always a third input to choose, so add-node never stops half done |
| GenomeLemmas.SingleInputStrands | ffbneat.py:160-162 | with one INPUT and one OUTPUT, add-node finds no third input and stops half done |
| Expressions.GetInputNodes | ffbneat.py:187-193 | it fails exactly when fewer than two enabled connections enter the node; otherwise it returns exactly the nodes that are sources of those connections, as a subsequence of the genome's node list (node order, not connection order) |
| Expressions.Driver | ffbneat.py:200-205 | no driver exactly when the OUTPUT does not have exactly one enabled incoming connection or no node carries that connection's source id; otherwise the driver is the first node with that id |
| ExpressionLemmas.InputNodesOfGate | ffbneat.py:187-193 | under the invariant a gate's input nodes are one per enabled incoming connection (so each once), each strictly below the gate |
| ExpressionLemmas.SourcesDistinct | ffbneat.py:191 | without duplicate pairs, the source ids of a node's enabled incoming connections are distinct |
| ExpressionLemmas.InputExpression | ffbneat.py:219-220 | an INPUT renders as `in_<id>` |
| ExpressionLemmas.OutputExpression | ffbneat.py:199-206 | an OUTPUT renders as `out_<id> = ` followed by its driver's expression; it fails without exactly one driver |
| ExpressionLemmas.GateExpression | ffbneat.py:207-218 | a gate renders as its input nodes' expressions, in node order, joined by the gate's keyword and wrapped in parentheses |
| ExpressionLemmas.GateExpressionFails | ffbneat.py:187-190 | a gate with fewer than two enabled inputs fails, and so does a gate one of whose inputs fails |
| ExpressionLemmas.BuildEachPointwise | ffbneat.py:208 | the list of operand expressions succeeds exactly when each one does, and holds them in order |
| ExpressionLemmas.BuildExpressionTotal | ffbneat.py:197-220 | `BuildExpression`, the model of `build_expression`, succeeds from every node of a genome with the invariant, where every OUTPUT is driven once and every gate at least twice |
| ExpressionLemmas.BuildTreeShaped | ffbneat.py:197-220 | every built tree has INPUT leaves from the genome and gates with two or more operands; an OUTPUT occurs only at the root; the root matches the start node |
| ExpressionLemmas.WireExpression | ffbneat.py:199-206 | an OUTPUT driven straight by an INPUT renders as `out_<id> = in_<i>`, where `i` is that driving INPUT's id |
| ExpressionLemmas.FirstGenerationWires | ffbneat.py:175-177 | in a fresh genome with at least as many inputs as outputs, every OUTPUT is driven by an INPUT `i` and renders as the plain wire `out_<id> = in_<i>` |
| Decimal.ParseNatToString | ffbneat.py:246 | the decimal numeral of an id reads back as that id |
| Decimal.NatToStringInjective | ffbneat.py:246 | distinct ids print as distinct numerals |
| Dot.NodeEntries | ffbneat.py:244-256 | one node line per node, in node order, each its id and the shape of its type |
| Dot.ConnectionEntries | ffbneat.py:258-262 | one connection line per connection, in order, each `a -> b`, dotted when disabled |
| DotLemmas.DotLines | ffbneat.py:242-263 | the text's lines are `digraph {`, the node lines, the connection lines and `}` |
| DotLemmas.ShapeRoundTrip | ffbneat.py:245-256 | each node type has its own shape, so the shape determines the type |
| DotLemmas.ParseNodeEntryOf | ffbneat.py:244-256 | a node line reads back as its node's id and type |
| DotLemmas.ParseConnectionEntryOf | ffbneat.py:258-262 | a connection line reads back as its ends and enabled flag |
| DotLemmas.ConnectionEntryIsNoNode | ffbneat.py:258-262 | a connection line never reads as a node line |
| DotLemmas.DottedIffDisabled | ffbneat.py:259-262 | a connection's line ends in ` [style=dotted]` exactly when the connection is disabled |
| DotLemmas.DotRoundTrip | ffbneat.py:240-263 | `DotText`, the model of `dot_print`: reading that text back gives every node's id and type and every connection's ends and enabled flag, each in order |

## Left out

- The file write in `dot_print` and the `print` in `evaluate`: the model keeps the DOT text as a string. `evaluate` itself only prints each OUTPUT's `build_expression`, and its scoring is commented out.
- The `__main__` driver: it is a script loop over the operations above.
- Python's `random` module and its distributions: every random result is a parameter.
- Floating-point layers: layers are exact reals, so repeated midpoints never round to equal values.
- FfbNeat.Genome.AddConnection: the unbounded retry loop is bounded by the supplied draws. When the draws run out it returns `NoAvailableConnection`. The source loop would instead spin forever when no acceptable pair exists, for example on a fresh genome (`FreshGenomeNeverConnects`).
- FfbNeat.Genome.AddNode: it requires the invariant. The `IndexError` that `[...][0]` raises when a connection's end is not a node cannot happen under it, and is not modelled.
- Expressions.BuildTree: it requires unique node ids and the feed-forward property, which give its termination measure. On a genome without them the source could recurse without end.
- Object identity: connections are edited by position, whereas the source edits the shared `Connection` object. The two agree because each connection object occurs once in the list.
- Connection innovations and node layers are not part of the DOT text, so the DOT reader does not recover them.
