/** The Graphviz DOT text `dot_print` writes for a genome, as a string, and a
    reader for that text: reading back what was written recovers every node's
    id and type, in order, and every connection's ends and enabled flag, in
    order. Layers and connection innovations are not part of the text. */
module Dot {
  import opened Sequences
  import opened Nodes
  import opened Genomes
  import opened Decimal

  // ---------------------------------------------------------------------------
  // Writing

  /** The node shape drawn for each node type. */
  function Shape(t: NodeType): string {
    match t
    case INPUT => "invtriangle"
    case OUTPUT => "triangle"
    case AND => "diamond"
    case OR => "house"
    case NAND => "trapezium"
    case NOR => "box"
  }

  /** A node's line without its line break. */
  function NodeEntry(n: Node): string {
    "  " + NatToString(n.innovation) + " [shape=" + Shape(n.nodeType) + "]"
  }

  /** A connection's line without its line break; disabled ones are dotted. */
  function ConnectionEntry(c: Connection): string {
    "  " + NatToString(c.input) + " -> " + NatToString(c.output) + (if c.enabled then "" else " [style=dotted]")
  }

  /** The node entries, one per node, in order. */
  function NodeEntries(nodes: seq<Node>): (r: seq<string>)
    ensures |r| == |nodes| && forall i :: 0 <= i < |nodes| ==> r[i] == NodeEntry(nodes[i])
  {
    if |nodes| == 0 then [] else [NodeEntry(nodes[0])] + NodeEntries(nodes[1..])
  }

  /** The connection entries, one per connection, in order. */
  function ConnectionEntries(cs: seq<Connection>): (r: seq<string>)
    ensures |r| == |cs| && forall i :: 0 <= i < |cs| ==> r[i] == ConnectionEntry(cs[i])
  {
    if |cs| == 0 then [] else [ConnectionEntry(cs[0])] + ConnectionEntries(cs[1..])
  }

  /** The entries written one after another, each followed by a line break. */
  function Unlines(entries: seq<string>): string {
    if |entries| == 0 then "" else entries[0] + "\n" + Unlines(entries[1..])
  }

  /** The whole file: the header, the node lines, the connection lines, the footer. */
  function DotText(g: GenomeState): string {
    "digraph {\n"
    + Unlines(NodeEntries(g.nodes))
    + Unlines(ConnectionEntries(g.connections))
    + "}\n"
  }

  // ---------------------------------------------------------------------------
  // Reading

  /** The position of the first line break in `s`, or `|s|` when there is none. */
  function LineEnd(s: string): (k: nat)
    ensures k <= |s| && (forall i :: 0 <= i < k ==> s[i] != '\n') && (k < |s| ==> s[k] == '\n')
  {
    if |s| == 0 || s[0] == '\n' then 0 else 1 + LineEnd(s[1..])
  }

  /** The lines of `s`, without their line breaks. */
  function Lines(s: string): seq<string>
    decreases |s|
  {
    if |s| == 0 then []
    else
      var k := LineEnd(s);
      if k == |s| then [s] else [s[..k]] + Lines(s[k + 1..])
  }

  /** The node type drawn with `shape`. */
  function TypeOfShape(shape: string): Option<NodeType> {
    if shape == "invtriangle" then Some(INPUT)
    else if shape == "triangle" then Some(OUTPUT)
    else if shape == "diamond" then Some(AND)
    else if shape == "house" then Some(OR)
    else if shape == "trapezium" then Some(NAND)
    else if shape == "box" then Some(NOR)
    else None
  }

  /** The id and type a node line describes. */
  function ParseNodeEntry(line: string): Option<(nat, NodeType)> {
    if |line| < 2 || line[..2] != "  " then None
    else
      var rest := line[2..];
      var k := DigitRun(rest);
      if k == 0 then None
      else
        var tail := rest[k..];
        if |tail| < 9 || tail[..8] != " [shape=" || tail[|tail| - 1] != ']' then None
        else
          match TypeOfShape(tail[8..|tail| - 1])
          case None => None
          case Some(t) => Some((ParseDigits(rest[..k]), t))
  }

  /** The source id, target id and enabled flag a connection line describes. */
  function ParseConnectionEntry(line: string): Option<(nat, nat, bool)> {
    if |line| < 2 || line[..2] != "  " then None
    else
      var rest := line[2..];
      var k := DigitRun(rest);
      if k == 0 || |rest| < k + 4 || rest[k..k + 4] != " -> " then None
      else
        var from := ParseDigits(rest[..k]);
        var after := rest[k + 4..];
        var j := DigitRun(after);
        if j == 0 then None
        else
          var to := ParseDigits(after[..j]);
          var tail := after[j..];
          if tail == "" then Some((from, to, true))
          else if tail == " [style=dotted]" then Some((from, to, false))
          else None
  }

  /** Connection lines to the end. */
  function ParseConnectionEntries(lines: seq<string>): Option<seq<(nat, nat, bool)>> {
    if |lines| == 0 then Some([])
    else
      match ParseConnectionEntry(lines[0])
      case None => None
      case Some(e) =>
        match ParseConnectionEntries(lines[1..])
        case None => None
        case Some(es) => Some([e] + es)
  }

  /** Node lines, then connection lines. */
  function ParseEntries(lines: seq<string>): Option<(seq<(nat, NodeType)>, seq<(nat, nat, bool)>)> {
    if |lines| == 0 then Some(([], []))
    else
      match ParseNodeEntry(lines[0])
      case None =>
        (match ParseConnectionEntries(lines)
         case None => None
         case Some(es) => Some(([], es)))
      case Some(n) =>
        match ParseEntries(lines[1..])
        case None => None
        case Some(body) => Some(([n] + body.0, body.1))
  }

  /** What a DOT text says about a genome: its nodes' ids and types, and its
      connections' ends and enabled flags, each in order. */
  function ParseDot(text: string): Option<(seq<(nat, NodeType)>, seq<(nat, nat, bool)>)> {
    var lines := Lines(text);
    if |lines| < 2 || lines[0] != "digraph {" || lines[|lines| - 1] != "}" then None
    else ParseEntries(lines[1..|lines| - 1])
  }

  /** The part of a node the text records. */
  function NodeSummary(nodes: seq<Node>): (r: seq<(nat, NodeType)>)
    ensures |r| == |nodes| && forall i :: 0 <= i < |nodes| ==> r[i] == (nodes[i].innovation, nodes[i].nodeType)
  {
    if |nodes| == 0 then [] else [(nodes[0].innovation, nodes[0].nodeType)] + NodeSummary(nodes[1..])
  }

  /** The part of a connection the text records. */
  function ConnectionSummary(cs: seq<Connection>): (r: seq<(nat, nat, bool)>)
    ensures |r| == |cs| && forall i :: 0 <= i < |cs| ==> r[i] == (cs[i].input, cs[i].output, cs[i].enabled)
  {
    if |cs| == 0 then [] else [(cs[0].input, cs[0].output, cs[0].enabled)] + ConnectionSummary(cs[1..])
  }
}
