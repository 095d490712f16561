/** The DOT text has one line per node and one per connection, in order, and
    reading it back recovers what was written. */
module DotLemmas {
  import opened Sequences
  import opened Nodes
  import opened Genomes
  import opened Decimal
  import opened Dot

  // ---------------------------------------------------------------------------
  // Numerals and line breaks

  ghost predicate NoBreak(s: string) {
    forall i :: 0 <= i < |s| ==> s[i] != '\n'
  }

  lemma NoBreakAppend(a: string, b: string)
    requires NoBreak(a) && NoBreak(b)
    ensures NoBreak(a + b)
  {
    forall i | 0 <= i < |a + b|
      ensures (a + b)[i] != '\n'
    {
      if i >= |a| {
        assert (a + b)[i] == b[i - |a|];
      }
    }
  }

  lemma NumeralNoBreak(n: nat)
    ensures NoBreak(NatToString(n))
  {
    var s := NatToString(n);
    forall i | 0 <= i < |s|
      ensures s[i] != '\n'
    {
      assert IsDigit(s[i]);
    }
  }

  /** A numeral followed by a non-digit reads back as its value, leaving what follows. */
  lemma ReadNumeral(n: nat, suffix: string)
    requires suffix == [] || !IsDigit(suffix[0])
    ensures var numeral := NatToString(n);
      var s := numeral + suffix;
      DigitRun(s) == |numeral| && ParseDigits(s[..|numeral|]) == n && s[|numeral|..] == suffix
  {
    var numeral := NatToString(n);
    DigitRunOfNumeral(n, suffix);
    assert (numeral + suffix)[..|numeral|] == numeral;
    ParseNatToString(n);
  }

  lemma NodeEntryNoBreak(n: Node)
    ensures NoBreak(NodeEntry(n))
  {
    NumeralNoBreak(n.innovation);
    NoBreakAppend("  ", NatToString(n.innovation));
    NoBreakAppend("  " + NatToString(n.innovation), " [shape=");
    NoBreakAppend("  " + NatToString(n.innovation) + " [shape=", Shape(n.nodeType));
    NoBreakAppend("  " + NatToString(n.innovation) + " [shape=" + Shape(n.nodeType), "]");
  }

  lemma ConnectionEntryNoBreak(c: Connection)
    ensures NoBreak(ConnectionEntry(c))
  {
    var a := "  " + NatToString(c.input);
    var b := a + " -> ";
    var d := b + NatToString(c.output);
    NumeralNoBreak(c.input);
    NumeralNoBreak(c.output);
    NoBreakAppend("  ", NatToString(c.input));
    NoBreakAppend(a, " -> ");
    NoBreakAppend(b, NatToString(c.output));
    NoBreakAppend(d, if c.enabled then "" else " [style=dotted]");
  }

  // ---------------------------------------------------------------------------
  // Lines

  /** A line without a break, then a break: the first line ends there. */
  lemma {:induction false} LineEndOf(line: string, rest: string)
    requires NoBreak(line)
    ensures LineEnd(line + "\n" + rest) == |line|
  {
    if |line| > 0 {
      assert (line + "\n" + rest)[1..] == line[1..] + "\n" + rest;
      LineEndOf(line[1..], rest);
    }
  }

  lemma LinesOfLine(line: string, rest: string)
    requires NoBreak(line)
    ensures Lines(line + "\n" + rest) == [line] + Lines(rest)
  {
    var s := line + "\n" + rest;
    LineEndOf(line, rest);
    assert s[..|line|] == line;
    assert s[|line| + 1..] == rest;
  }

  /** Lines written one after the other read back as those lines. */
  lemma {:induction false} LinesOfUnlines(entries: seq<string>, rest: string)
    requires forall i :: 0 <= i < |entries| ==> NoBreak(entries[i])
    ensures Lines(Unlines(entries) + rest) == entries + Lines(rest)
  {
    if |entries| == 0 {
      assert Unlines(entries) + rest == rest;
    } else {
      var e := entries[0];
      var tail := Unlines(entries[1..]);
      calc {
        Lines(Unlines(entries) + rest);
        { assert Unlines(entries) + rest == e + "\n" + (tail + rest); }
        Lines(e + "\n" + (tail + rest));
        { LinesOfLine(e, tail + rest); }
        [e] + Lines(tail + rest);
        { LinesOfUnlines(entries[1..], rest); }
        [e] + (entries[1..] + Lines(rest));
        { assert entries == [e] + entries[1..]; }
        entries + Lines(rest);
      }
    }
  }

  lemma NodeEntriesNoBreak(nodes: seq<Node>)
    ensures forall i :: 0 <= i < |nodes| ==> NoBreak(NodeEntries(nodes)[i])
  {
    forall i | 0 <= i < |nodes|
      ensures NoBreak(NodeEntries(nodes)[i])
    {
      NodeEntryNoBreak(nodes[i]);
    }
  }

  lemma ConnectionEntriesNoBreak(cs: seq<Connection>)
    ensures forall i :: 0 <= i < |cs| ==> NoBreak(ConnectionEntries(cs)[i])
  {
    forall i | 0 <= i < |cs|
      ensures NoBreak(ConnectionEntries(cs)[i])
    {
      ConnectionEntryNoBreak(cs[i]);
    }
  }

  /** The node and connection lines followed by the footer line. */
  lemma BodyLines(ns: seq<string>, cs: seq<string>)
    requires forall i :: 0 <= i < |ns| ==> NoBreak(ns[i])
    requires forall i :: 0 <= i < |cs| ==> NoBreak(cs[i])
    ensures Lines(Unlines(ns) + (Unlines(cs) + "}\n")) == ns + cs + ["}"]
  {
    calc {
      Lines(Unlines(ns) + (Unlines(cs) + "}\n"));
      { LinesOfUnlines(ns, Unlines(cs) + "}\n"); }
      ns + Lines(Unlines(cs) + "}\n");
      { LinesOfUnlines(cs, "}\n"); }
      ns + (cs + Lines("}\n"));
      { assert "}\n" == "}" + "\n" + ""; LinesOfLine("}", ""); }
      ns + (cs + ["}"]);
    }
  }

  lemma Regroup(head: string, a: string, b: string, foot: string)
    ensures head + a + b + foot == head + (a + (b + foot))
  {
  }

  /** The text is the header line, one line per node in node order, one line
      per connection in connection order, and the footer line. */
  lemma DotLines(g: GenomeState)
    ensures Lines(DotText(g)) == ["digraph {"] + NodeEntries(g.nodes) + ConnectionEntries(g.connections) + ["}"]
  {
    var ns := NodeEntries(g.nodes);
    var cs := ConnectionEntries(g.connections);
    var body := Unlines(ns) + (Unlines(cs) + "}\n");
    calc {
      Lines(DotText(g));
      { Regroup("digraph {\n", Unlines(ns), Unlines(cs), "}\n");
        assert "digraph {\n" == "digraph {" + "\n"; }
      Lines("digraph {" + "\n" + body);
      { LinesOfLine("digraph {", body); }
      ["digraph {"] + Lines(body);
      { NodeEntriesNoBreak(g.nodes); ConnectionEntriesNoBreak(g.connections); BodyLines(ns, cs); }
      ["digraph {"] + (ns + cs + ["}"]);
      { assert ["digraph {"] + (ns + cs + ["}"]) == ["digraph {"] + ns + cs + ["}"]; }
      ["digraph {"] + ns + cs + ["}"];
    }
  }

  // ---------------------------------------------------------------------------
  // Single lines read back

  lemma ShapeRoundTrip(t: NodeType)
    ensures TypeOfShape(Shape(t)) == Some(t)
  {
  }

  /** The part of a node line after its leading spaces. */
  lemma NodeEntryParts(n: Node)
    ensures var rest := NatToString(n.innovation) + (" [shape=" + (Shape(n.nodeType) + "]"));
      |NodeEntry(n)| >= 2 && NodeEntry(n)[..2] == "  " && NodeEntry(n)[2..] == rest
  {
    var rest := NatToString(n.innovation) + (" [shape=" + (Shape(n.nodeType) + "]"));
    assert NodeEntry(n) == "  " + rest;
  }

  /** The shape attribute around a shape name. */
  lemma ReadShapeAttribute(shape: string)
    ensures var tail := " [shape=" + (shape + "]");
      |tail| >= 9 && tail[..8] == " [shape=" && tail[|tail| - 1] == ']' && tail[8..|tail| - 1] == shape
      && !IsDigit(tail[0])
  {
    var tail := " [shape=" + (shape + "]");
    assert tail[8..] == shape + "]";
    assert tail[8..|tail| - 1] == (shape + "]")[..|shape|];
  }

  lemma ParseNodeEntryOf(n: Node)
    ensures ParseNodeEntry(NodeEntry(n)) == Some((n.innovation, n.nodeType))
  {
    var shape := Shape(n.nodeType);
    NodeEntryParts(n);
    ReadShapeAttribute(shape);
    ReadNumeral(n.innovation, " [shape=" + (shape + "]"));
    ShapeRoundTrip(n.nodeType);
  }

  /** The part of a connection line after its leading spaces. */
  lemma ConnectionEntryParts(c: Connection)
    ensures var rest := NatToString(c.input) + (" -> " + (NatToString(c.output) + (if c.enabled then "" else " [style=dotted]")));
      |ConnectionEntry(c)| >= 2 && ConnectionEntry(c)[..2] == "  " && ConnectionEntry(c)[2..] == rest
  {
    var rest := NatToString(c.input) + (" -> " + (NatToString(c.output) + (if c.enabled then "" else " [style=dotted]")));
    assert ConnectionEntry(c) == "  " + rest;
  }

  /** A numeral, the arrow, then what follows the arrow. */
  lemma ReadArrow(n: nat, after: string)
    ensures var a := NatToString(n);
      var rest := a + (" -> " + after);
      DigitRun(rest) == |a| && ParseDigits(rest[..|a|]) == n
      && |rest| >= |a| + 4 && rest[|a|..|a| + 4] == " -> " && rest[|a| + 4..] == after
  {
    var a := NatToString(n);
    var arrow := " -> " + after;
    var rest := a + arrow;
    ReadNumeral(n, arrow);
    assert rest[|a|..] == arrow;
    assert arrow[..4] == " -> " && arrow[4..] == after;
    assert rest[|a|..|a| + 4] == arrow[..4];
    assert rest[|a| + 4..] == arrow[4..];
  }

  lemma ParseConnectionEntryOf(c: Connection)
    ensures ParseConnectionEntry(ConnectionEntry(c)) == Some((c.input, c.output, c.enabled))
  {
    var tail := if c.enabled then "" else " [style=dotted]";
    ConnectionEntryParts(c);
    ReadArrow(c.input, NatToString(c.output) + tail);
    ReadNumeral(c.output, tail);
  }

  /** A connection line never reads as a node line. */
  lemma ConnectionEntryIsNoNode(c: Connection)
    ensures ParseNodeEntry(ConnectionEntry(c)) == None
  {
    var after := NatToString(c.output) + (if c.enabled then "" else " [style=dotted]");
    var rest := NatToString(c.input) + (" -> " + after);
    var k := |NatToString(c.input)|;
    ConnectionEntryParts(c);
    ReadArrow(c.input, after);
    var tail := rest[k..];
    assert tail[1] == rest[k..k + 4][1] == '-';
    assert |tail| >= 8 ==> tail[..8][1] == '-';
  }

  /** A disabled connection's line, and only a disabled one's, ends in the dotted style. */
  lemma DottedIffDisabled(c: Connection)
    ensures var line := ConnectionEntry(c);
      (|line| >= 15 && line[|line| - 15..] == " [style=dotted]") <==> !c.enabled
  {
    var line := ConnectionEntry(c);
    var b := NatToString(c.output);
    var head := "  " + NatToString(c.input) + " -> " + b;
    if c.enabled {
      assert line == head;
      assert line[|line| - 1] == b[|b| - 1];
      assert IsDigit(b[|b| - 1]);
    } else {
      assert line == head + " [style=dotted]";
    }
  }

  // ---------------------------------------------------------------------------
  // The whole text read back

  lemma {:induction false} ParseConnectionEntriesOf(cs: seq<Connection>)
    ensures ParseConnectionEntries(ConnectionEntries(cs)) == Some(ConnectionSummary(cs))
  {
    if |cs| > 0 {
      ParseConnectionEntryOf(cs[0]);
      assert ConnectionEntries(cs)[1..] == ConnectionEntries(cs[1..]);
      ParseConnectionEntriesOf(cs[1..]);
      assert ConnectionSummary(cs) == [(cs[0].input, cs[0].output, cs[0].enabled)] + ConnectionSummary(cs[1..]);
    }
  }

  /** A node line heads the node part of what it starts. */
  lemma ParseEntriesNodeLine(line: string, more: seq<string>, n: (nat, NodeType))
    requires ParseNodeEntry(line) == Some(n)
    ensures ParseEntries([line] + more) ==
      match ParseEntries(more)
      case None => None
      case Some(body) => Some(([n] + body.0, body.1))
  {
    assert ([line] + more)[1..] == more;
  }

  /** Lines that do not start with a node line are all connection lines. */
  lemma ParseEntriesNoNodeLine(lines: seq<string>)
    requires |lines| > 0 && ParseNodeEntry(lines[0]) == None
    ensures ParseEntries(lines) ==
      match ParseConnectionEntries(lines)
      case None => None
      case Some(es) => Some(([], es))
  {
  }

  /** The first node line, read back, heads the node part. */
  lemma ParseEntriesFirstNode(nodes: seq<Node>, cs: seq<Connection>)
    requires |nodes| > 0
    ensures ParseEntries(NodeEntries(nodes) + ConnectionEntries(cs)) ==
      match ParseEntries(NodeEntries(nodes[1..]) + ConnectionEntries(cs))
      case None => None
      case Some(body) => Some(([(nodes[0].innovation, nodes[0].nodeType)] + body.0, body.1))
  {
    var more := NodeEntries(nodes[1..]) + ConnectionEntries(cs);
    assert NodeEntries(nodes) + ConnectionEntries(cs) == [NodeEntry(nodes[0])] + more;
    ParseNodeEntryOf(nodes[0]);
    ParseEntriesNodeLine(NodeEntry(nodes[0]), more, (nodes[0].innovation, nodes[0].nodeType));
  }

  /** Connection lines alone read back as no nodes and those connections. */
  lemma ParseEntriesOfConnections(cs: seq<Connection>)
    ensures ParseEntries(ConnectionEntries(cs)) == Some(([], ConnectionSummary(cs)))
  {
    ParseConnectionEntriesOf(cs);
    if |cs| > 0 {
      ConnectionEntryIsNoNode(cs[0]);
      ParseEntriesNoNodeLine(ConnectionEntries(cs));
    }
  }

  lemma {:induction false} ParseEntriesOf(nodes: seq<Node>, cs: seq<Connection>)
    ensures ParseEntries(NodeEntries(nodes) + ConnectionEntries(cs)) == Some((NodeSummary(nodes), ConnectionSummary(cs)))
  {
    if |nodes| > 0 {
      ParseEntriesFirstNode(nodes, cs);
      ParseEntriesOf(nodes[1..], cs);
      assert NodeSummary(nodes) == [(nodes[0].innovation, nodes[0].nodeType)] + NodeSummary(nodes[1..]);
    } else {
      assert NodeEntries(nodes) + ConnectionEntries(cs) == ConnectionEntries(cs);
      ParseEntriesOfConnections(cs);
    }
  }

  /** A text framed by the header and footer lines reads as its body. */
  lemma ParseFramed(text: string, ns: seq<string>, cs: seq<string>)
    requires Lines(text) == ["digraph {"] + ns + cs + ["}"]
    ensures ParseDot(text) == ParseEntries(ns + cs)
  {
    var lines := Lines(text);
    assert lines[1..|lines| - 1] == ns + cs;
  }

  /** Reading the DOT text of a genome gives back, in order, every node's id
      and type and every connection's ends and enabled flag. */
  lemma DotRoundTrip(g: GenomeState)
    ensures ParseDot(DotText(g)) == Some((NodeSummary(g.nodes), ConnectionSummary(g.connections)))
  {
    DotLines(g);
    ParseFramed(DotText(g), NodeEntries(g.nodes), ConnectionEntries(g.connections));
    ParseEntriesOf(g.nodes, g.connections);
  }
}
