/** graph_to_mermaid and graph_to_dot of the dependency-graph tool: nodes
    numbered N0, N1, ... in key order, an edge drawn only when both its
    ends are nodes, and edges that follow a detected cycle marked. */
module DependencyRender {
  import opened Ordering
  import opened DependencyGraph
  import Language

  // ---------------------------------------------------------------------
  // Node identifiers

  function Digit(d: nat): char
    requires d < 10
  {
    "0123456789"[d]
  }

  function DigitValue(c: char): nat
  {
    if '0' <= c <= '9' then c as int - '0' as int else 0
  }

  /** std::to_string of a non-negative counter: its decimal digits. */
  function NatStr(n: nat): (r: string)
    ensures r != []
  {
    if n < 10 then [Digit(n)] else NatStr(n / 10) + [Digit(n % 10)]
  }

  /** Decimal digits read back as a number. */
  function ParseNat(s: string): nat
  {
    if s == [] then 0 else 10 * ParseNat(s[..|s| - 1]) + DigitValue(s[|s| - 1])
  }

  lemma DigitRoundTrip(d: nat)
    requires d < 10
    ensures DigitValue(Digit(d)) == d
  {
  }

  lemma {:induction false} NatStrRoundTrip(n: nat)
    ensures ParseNat(NatStr(n)) == n
  {
    if n >= 10 {
      NatStrRoundTrip(n / 10);
      var s := NatStr(n);
      assert s[..|s| - 1] == NatStr(n / 10);
      DigitRoundTrip(n % 10);
      assert n == 10 * (n / 10) + n % 10;
    }
  }

  /** A counter's text has no leading zero unless it is "0". */
  lemma {:induction false} NatStrNoLeadingZero(n: nat)
    ensures NatStr(n)[0] == '0' <==> n == 0
    ensures forall i :: 0 <= i < |NatStr(n)| ==> '0' <= NatStr(n)[i] <= '9'
  {
    if n >= 10 {
      NatStrNoLeadingZero(n / 10);
    }
  }

  /** The identifier of the i-th node in key order. */
  function Id(i: nat): string
  {
    "N" + NatStr(i)
  }

  lemma IdInjective(i: nat, j: nat)
    ensures Id(i) == Id(j) ==> i == j
  {
    if Id(i) == Id(j) {
      assert NatStr(i) == Id(i)[1..] && NatStr(j) == Id(j)[1..];
      NatStrRoundTrip(i);
      NatStrRoundTrip(j);
    }
  }

  /** node_ids once the nodes loop has numbered the given keys. */
  function Ids(keys: seq<string>): map<string, string>
  {
    if keys == [] then map[]
    else Ids(keys[..|keys| - 1])[keys[|keys| - 1] := Id(|keys| - 1)]
  }

  /** Exactly the keys get an identifier. */
  lemma {:induction false} IdsKeys(keys: seq<string>)
    ensures Ids(keys).Keys == Elems(keys)
  {
    if keys != [] {
      var init := keys[..|keys| - 1];
      IdsKeys(init);
      assert keys == init + [keys[|keys| - 1]];
    }
  }

  /** Every key gets the identifier of its position, so distinct keys get
      distinct identifiers, and nothing else gets one. */
  lemma {:induction false} IdsExact(keys: seq<string>)
    requires Distinct(keys)
    ensures Ids(keys).Keys == Elems(keys)
    ensures forall i :: 0 <= i < |keys| ==> Ids(keys)[keys[i]] == Id(i)
  {
    IdsKeys(keys);
    if keys != [] {
      var init := keys[..|keys| - 1];
      assert Distinct(init);
      IdsExact(init);
      var last := keys[|keys| - 1];
      forall i | 0 <= i < |keys| - 1
        ensures Ids(keys)[keys[i]] == Id(i)
      {
        assert keys[i] == init[i] && keys[i] != last;
      }
    }
  }

  lemma IdsInjective(keys: seq<string>, a: string, b: string)
    requires Distinct(keys) && a in Ids(keys) && b in Ids(keys) && a != b
    ensures Ids(keys)[a] != Ids(keys)[b]
  {
    IdsExact(keys);
    var i :| 0 <= i < |keys| && keys[i] == a;
    var j :| 0 <= j < |keys| && keys[j] == b;
    IdInjective(i, j);
  }

  // ---------------------------------------------------------------------
  // Cycle edges

  /** The edge from `from` to `to` follows one of the cycles: the two are
      consecutive in a cycle list, its last member wrapping round to its
      first. */
  ghost predicate Consecutive(cycles: seq<seq<string>>, from: string, to: string)
  {
    exists c, i :: c in cycles && Follows(c, i, from, to)
  }

  /** Position i of cycle c holds `from`, and the next position, wrapping
      round, holds `to`. */
  predicate Follows(c: seq<string>, i: int, from: string, to: string)
  {
    0 <= i < |c| && from == c[i] && to == c[(i + 1) % |c|]
  }

  /** The pairs the cycle-edge loops visit, up to position n of cycle c. */
  function PairsOf(c: seq<string>, n: nat): set<(string, string)>
    requires n <= |c|
  {
    if n == 0 then {} else PairsOf(c, n - 1) + {(c[n - 1], c[n % |c|])}
  }

  /** The pairs the cycle-edge loops visit for all cycles. */
  function Pairs(cycles: seq<seq<string>>): set<(string, string)>
  {
    if cycles == [] then {}
    else Pairs(cycles[..|cycles| - 1]) + PairsOf(cycles[|cycles| - 1], |cycles[|cycles| - 1]|)
  }

  lemma {:induction false} PairsOfExact(c: seq<string>, n: nat, from: string, to: string)
    requires n <= |c|
    ensures (from, to) in PairsOf(c, n) <==> exists i :: i < n && Follows(c, i, from, to)
  {
    if n > 0 {
      PairsOfExact(c, n - 1, from, to);
      assert n % |c| == (n - 1 + 1) % |c|;
      if (from, to) in PairsOf(c, n) && (from, to) !in PairsOf(c, n - 1) {
        assert Follows(c, n - 1, from, to);
      }
    }
  }

  /** The visited pairs are exactly the consecutive ones. */
  lemma {:induction false} PairsConsecutive(cycles: seq<seq<string>>, from: string, to: string)
    ensures (from, to) in Pairs(cycles) <==> Consecutive(cycles, from, to)
  {
    if cycles != [] {
      var init := cycles[..|cycles| - 1];
      var c := cycles[|cycles| - 1];
      PairsConsecutive(init, from, to);
      PairsOfExact(c, |c|, from, to);
      if Consecutive(cycles, from, to) {
        var d, i :| d in cycles && Follows(d, i, from, to);
        if d != c {
          assert d in init by {
            assert cycles == init + [c];
          }
        }
      }
      if Consecutive(init, from, to) {
        var d, i :| d in init && Follows(d, i, from, to);
        assert d in cycles;
      }
    }
  }

  /** The corrected cycle_edges: the loops over the cycles collect the
      (from, to) pairs themselves, so an edge is marked exactly when it
      follows a cycle. */
  method CycleEdges(cycles: seq<seq<string>>) returns (marked: set<(string, string)>)
    ensures marked == Pairs(cycles)
    ensures forall from, to :: (from, to) in marked <==> Consecutive(cycles, from, to)
  {
    marked := {};
    var k := 0;
    while k < |cycles|
      invariant 0 <= k <= |cycles|
      invariant marked == Pairs(cycles[..k])
    {
      var cycle := cycles[k];
      var i := 0;
      while i < |cycle|
        invariant 0 <= i <= |cycle|
        invariant marked == Pairs(cycles[..k]) + PairsOf(cycle, i)
      {
        marked := marked + {(cycle[i], cycle[(i + 1) % |cycle|])};
        i := i + 1;
      }
      assert cycles[..k + 1][..k] == cycles[..k];
      k := k + 1;
    }
    assert cycles[..k] == cycles;
    forall from, to
      ensures (from, to) in marked <==> Consecutive(cycles, from, to)
    {
      PairsConsecutive(cycles, from, to);
    }
  }

  /** The key the renderers store for an edge: from + "->" + to. */
  function EdgeKey(from: string, to: string): string
  {
    from + "->" + to
  }

  /** The keys the cycle-edge loops insert for cycle c, up to position n. */
  function KeysOf(c: seq<string>, n: nat): set<string>
    requires n <= |c|
  {
    if n == 0 then {} else KeysOf(c, n - 1) + {EdgeKey(c[n - 1], c[n % |c|])}
  }

  /** cycle_edges as written: a set of joined strings, not of pairs. */
  function CycleKeys(cycles: seq<seq<string>>): set<string>
  {
    if cycles == [] then {}
    else CycleKeys(cycles[..|cycles| - 1]) + KeysOf(cycles[|cycles| - 1], |cycles[|cycles| - 1]|)
  }

  lemma {:induction false} KeysOfPairs(c: seq<string>, n: nat, key: string)
    requires n <= |c|
    ensures key in KeysOf(c, n) <==> exists p :: p in PairsOf(c, n) && EdgeKey(p.0, p.1) == key
  {
    if n > 0 {
      KeysOfPairs(c, n - 1, key);
      var q := (c[n - 1], c[n % |c|]);
      assert q in PairsOf(c, n);
    }
  }

  lemma {:induction false} CycleKeysPairs(cycles: seq<seq<string>>, key: string)
    ensures key in CycleKeys(cycles) <==> exists p :: p in Pairs(cycles) && EdgeKey(p.0, p.1) == key
  {
    if cycles != [] {
      var c := cycles[|cycles| - 1];
      CycleKeysPairs(cycles[..|cycles| - 1], key);
      KeysOfPairs(c, |c|, key);
    }
  }

  /** A key is stored exactly when it joins the ends of some edge that
      follows a cycle. */
  lemma CycleKeysExact(cycles: seq<seq<string>>, key: string)
    ensures key in CycleKeys(cycles) <==> exists from, to :: Consecutive(cycles, from, to) && EdgeKey(from, to) == key
  {
    CycleKeysPairs(cycles, key);
    if key in CycleKeys(cycles) {
      var p :| p in Pairs(cycles) && EdgeKey(p.0, p.1) == key;
      PairsConsecutive(cycles, p.0, p.1);
    }
    if exists from, to :: Consecutive(cycles, from, to) && EdgeKey(from, to) == key {
      var from, to :| Consecutive(cycles, from, to) && EdgeKey(from, to) == key;
      PairsConsecutive(cycles, from, to);
      assert (from, to) in Pairs(cycles);
    }
  }

  /** The as-written test never misses an edge that follows a cycle. */
  lemma KeysCoverCycles(cycles: seq<seq<string>>, from: string, to: string)
    requires Consecutive(cycles, from, to)
    ensures EdgeKey(from, to) in CycleKeys(cycles)
  {
    CycleKeysExact(cycles, EdgeKey(from, to));
  }

  /** But joining the names loses where one ends: with the cycle
      ["x", "y->z"] the edge from "x->y" to "z" has the key "x->y->z" of
      the cycle edge from "x" to "y->z", so it is drawn as a cycle edge
      although it follows no cycle. */
  lemma KeyCollision()
    ensures EdgeKey("x->y", "z") in CycleKeys([["x", "y->z"]])
    ensures !Consecutive([["x", "y->z"]], "x->y", "z")
  {
    var cycles := [["x", "y->z"]];
    assert Follows(cycles[0], 0, "x", "y->z");
    KeysCoverCycles(cycles, "x", "y->z");
    assert EdgeKey("x", "y->z") == EdgeKey("x->y", "z");
  }

  /** cycle_edges as written: the loops over the cycles insert the
      joined key of each consecutive pair. */
  method CycleEdgeKeys(cycles: seq<seq<string>>) returns (marked: set<string>)
    ensures marked == CycleKeys(cycles)
    ensures forall from, to :: Consecutive(cycles, from, to) ==> EdgeKey(from, to) in marked
  {
    marked := {};
    var k := 0;
    while k < |cycles|
      invariant 0 <= k <= |cycles|
      invariant marked == CycleKeys(cycles[..k])
    {
      var cycle := cycles[k];
      var i := 0;
      while i < |cycle|
        invariant 0 <= i <= |cycle|
        invariant marked == CycleKeys(cycles[..k]) + KeysOf(cycle, i)
      {
        var from := cycle[i];
        var to := cycle[(i + 1) % |cycle|];
        marked := marked + {from + "->" + to};
        i := i + 1;
      }
      assert cycles[..k + 1][..k] == cycles[..k];
      k := k + 1;
    }
    assert cycles[..k] == cycles;
    forall from, to | Consecutive(cycles, from, to)
      ensures EdgeKey(from, to) in marked
    {
      KeysCoverCycles(cycles, from, to);
    }
  }

  // ---------------------------------------------------------------------
  // Output lines

  datatype Style = Mermaid | Dot

  /** One line of output: a node, an edge, or a Mermaid cycle-node class. */
  datatype Line =
    | NodeLine(id: string, name: string)
    | EdgeLine(from: string, to: string, cycle: bool)
    | ClassLine(id: string)

  function Format(style: Style, line: Line): string
  {
    match (style, line)
    case (Mermaid, NodeLine(id, name)) => "    " + id + "[\"" + name + "\"]\n"
    case (Dot, NodeLine(id, name)) => "    " + id + " [label=\"" + name + "\"];\n"
    case (Mermaid, EdgeLine(from, to, cycle)) =>
      "    " + from + (if cycle then " -.->|cycle| " else " --> ") + to + "\n"
    case (Dot, EdgeLine(from, to, cycle)) =>
      "    " + from + " -> " + to + (if cycle then " [color=red, penwidth=2.0, label=\"cycle\"]" else "") + ";\n"
    case (_, ClassLine(id)) => "    class " + id + " cycleNode\n"
  }

  function Render(style: Style, lines: seq<Line>): string
  {
    if lines == [] then "" else Render(style, lines[..|lines| - 1]) + Format(style, lines[|lines| - 1])
  }

  lemma RenderSnoc(style: Style, lines: seq<Line>, line: Line)
    ensures Render(style, lines + [line]) == Render(style, lines) + Format(style, line)
  {
    assert (lines + [line])[..|lines|] == lines;
  }

  /** The node lines: each key under its identifier, shown by file name. */
  function NodeLines(keys: seq<string>): seq<Line>
  {
    if keys == [] then []
    else NodeLines(keys[..|keys| - 1]) + [NodeLine(Id(|keys| - 1), Language.FileName(keys[|keys| - 1]))]
  }

  /** The edge lines: an edge whose ends both have identifiers, marked
      when its joined key is among the cycle-edge keys. */
  function EdgeLines(edges: seq<Edge>, ids: map<string, string>, marked: set<string>): seq<Line>
  {
    if edges == [] then []
    else
      EdgeLines(edges[..|edges| - 1], ids, marked) + EdgeItem(edges[|edges| - 1], ids, marked)
  }

  /** The line of one edge, if both its ends are nodes. */
  function EdgeItem(e: Edge, ids: map<string, string>, marked: set<string>): seq<Line>
  {
    if e.from in ids && e.to in ids then [EdgeLine(ids[e.from], ids[e.to], EdgeKey(e.from, e.to) in marked)] else []
  }

  lemma EdgeLinesNext(edges: seq<Edge>, k: nat, ids: map<string, string>, marked: set<string>)
    requires k < |edges|
    ensures EdgeLines(edges[..k + 1], ids, marked) == EdgeLines(edges[..k], ids, marked) + EdgeItem(edges[k], ids, marked)
  {
    assert edges[..k + 1][..k] == edges[..k];
  }

  /** The class lines of one cycle: one per member that is a node. */
  function CycleClassLines(cycle: seq<string>, ids: map<string, string>): seq<Line>
  {
    if cycle == [] then []
    else
      var v := cycle[|cycle| - 1];
      CycleClassLines(cycle[..|cycle| - 1], ids) + if v in ids then [ClassLine(ids[v])] else []
  }

  function ClassLines(cycles: seq<seq<string>>, ids: map<string, string>): seq<Line>
  {
    if cycles == [] then []
    else ClassLines(cycles[..|cycles| - 1], ids) + CycleClassLines(cycles[|cycles| - 1], ids)
  }

  /** Each key has one node line, under its own identifier. */
  lemma {:induction false} NodeLinesLength(keys: seq<string>)
    ensures |NodeLines(keys)| == |keys|
  {
    if keys != [] {
      NodeLinesLength(keys[..|keys| - 1]);
    }
  }

  lemma {:induction false} NodeLinesExact(keys: seq<string>, i: nat)
    requires i < |keys|
    ensures |NodeLines(keys)| == |keys|
    ensures NodeLines(keys)[i] == NodeLine(Id(i), Language.FileName(keys[i]))
  {
    var init := keys[..|keys| - 1];
    NodeLinesLength(init);
    NodeLinesLength(keys);
    if i < |keys| - 1 {
      NodeLinesExact(init, i);
      assert keys[i] == init[i];
    }
  }

  /** An edge line is drawn for exactly the edges whose ends are both
      nodes, between their identifiers, and marked exactly when the edge's
      key is among the cycle-edge keys. */
  lemma {:induction false} EdgeLinesExact(edges: seq<Edge>, ids: map<string, string>, marked: set<string>, line: Line)
    ensures line in EdgeLines(edges, ids, marked) <==>
      exists e :: e in edges && e.from in ids && e.to in ids
        && line == EdgeLine(ids[e.from], ids[e.to], EdgeKey(e.from, e.to) in marked)
  {
    if edges != [] {
      var init := edges[..|edges| - 1];
      var e := edges[|edges| - 1];
      EdgeLinesExact(init, ids, marked, line);
      assert edges == init + [e];
    }
  }

  /** A class line is written for exactly the cycle members that are
      nodes. */
  lemma {:induction false} CycleClassLinesExact(cycle: seq<string>, ids: map<string, string>, line: Line)
    ensures line in CycleClassLines(cycle, ids) <==> exists v :: v in cycle && v in ids && line == ClassLine(ids[v])
  {
    if cycle != [] {
      CycleClassLinesExact(cycle[..|cycle| - 1], ids, line);
      assert cycle == cycle[..|cycle| - 1] + [cycle[|cycle| - 1]];
    }
  }

  lemma {:induction false} ClassLinesExact(cycles: seq<seq<string>>, ids: map<string, string>, line: Line)
    ensures line in ClassLines(cycles, ids) <==>
      exists c, v :: c in cycles && v in c && v in ids && line == ClassLine(ids[v])
  {
    if cycles != [] {
      var init := cycles[..|cycles| - 1];
      var c := cycles[|cycles| - 1];
      ClassLinesExact(init, ids, line);
      CycleClassLinesExact(c, ids, line);
      assert cycles == init + [c];
    }
  }

  // ---------------------------------------------------------------------
  // The renderers

  const MermaidHeader := "graph TD\n"
  const MermaidClassDef := "\n    classDef cycleNode fill:#f96\n"
  const DotHeader := "digraph dependencies {\n    rankdir=LR;\n    node [shape=box];\n\n"

  /** The Mermaid text for nodes in the given order. */
  function MermaidText(keys: seq<string>, edges: seq<Edge>, cycles: seq<seq<string>>): string
  {
    var ids := Ids(keys);
    MermaidHeader + Render(Mermaid, NodeLines(keys)) + Render(Mermaid, EdgeLines(edges, ids, CycleKeys(cycles)))
      + if cycles == [] then "" else MermaidClassDef + Render(Mermaid, ClassLines(cycles, ids))
  }

  /** The DOT text for nodes in the given order. */
  function DotText(keys: seq<string>, edges: seq<Edge>, cycles: seq<seq<string>>): string
  {
    var ids := Ids(keys);
    DotHeader + Render(Dot, NodeLines(keys)) + "\n" + Render(Dot, EdgeLines(edges, ids, CycleKeys(cycles))) + "}\n"
  }

  /** graph_to_mermaid: the nodes in the map's key order. */
  method GraphToMermaid(graph: Graph, edges: seq<Edge>, cycles: seq<seq<string>>) returns (text: string)
    ensures text == MermaidText(InOrder(graph.Keys, false), edges, cycles)
  {
    var keys := InOrder(graph.Keys, false);
    text := WriteMermaid(keys, edges, cycles);
  }

  /** graph_to_dot: the nodes in the map's key order. */
  method GraphToDot(graph: Graph, edges: seq<Edge>, cycles: seq<seq<string>>) returns (text: string)
    ensures text == DotText(InOrder(graph.Keys, false), edges, cycles)
  {
    var keys := InOrder(graph.Keys, false);
    text := WriteDot(keys, edges, cycles);
  }

  method WriteMermaid(keys: seq<string>, edges: seq<Edge>, cycles: seq<seq<string>>) returns (text: string)
    ensures text == MermaidText(keys, edges, cycles)
  {
    var nodes, ids := WriteNodes(Mermaid, keys);
    var marked := CycleEdgeKeys(cycles);
    var links := WriteEdges(Mermaid, edges, ids, marked);
    text := MermaidHeader + nodes + links;
    if cycles != [] {
      var classes := WriteClasses(cycles, ids);
      text := text + MermaidClassDef + classes;
    }
  }

  method WriteDot(keys: seq<string>, edges: seq<Edge>, cycles: seq<seq<string>>) returns (text: string)
    ensures text == DotText(keys, edges, cycles)
  {
    var nodes, ids := WriteNodes(Dot, keys);
    var marked := CycleEdgeKeys(cycles);
    var links := WriteEdges(Dot, edges, ids, marked);
    text := DotHeader + nodes + "\n" + links + "}\n";
  }

  /** One more key extends the node lines by its line and the identifier
      map by its identifier. */
  lemma NodesNext(keys: seq<string>, counter: nat)
    requires counter < |keys|
    ensures NodeLines(keys[..counter + 1])
         == NodeLines(keys[..counter]) + [NodeLine(Id(counter), Language.FileName(keys[counter]))]
    ensures Ids(keys[..counter + 1]) == Ids(keys[..counter])[keys[counter] := Id(counter)]
  {
    assert keys[..counter + 1][..counter] == keys[..counter];
  }

  /** The nodes loop: numbers the keys in order and writes a line for
      each. */
  method WriteNodes(style: Style, keys: seq<string>) returns (text: string, ids: map<string, string>)
    ensures text == Render(style, NodeLines(keys))
    ensures ids == Ids(keys)
  {
    text, ids := "", map[];
    var counter := 0;
    while counter < |keys|
      invariant 0 <= counter <= |keys|
      invariant text == Render(style, NodeLines(keys[..counter]))
      invariant ids == Ids(keys[..counter])
    {
      var id := "N" + NatStr(counter);
      var line := NodeLine(id, Language.FileName(keys[counter]));
      NodesNext(keys, counter);
      RenderSnoc(style, NodeLines(keys[..counter]), line);
      ids := ids[keys[counter] := id];
      text := text + Format(style, line);
      counter := counter + 1;
    }
    assert keys[..counter] == keys;
  }

  /** One iteration of the edges loop: the k-th edge's line, if any. */
  method WriteEdge(style: Style, edges: seq<Edge>, k: nat, ids: map<string, string>, marked: set<string>, text: string)
    returns (text': string)
    requires k < |edges|
    requires text == Render(style, EdgeLines(edges[..k], ids, marked))
    ensures text' == Render(style, EdgeLines(edges[..k + 1], ids, marked))
  {
    var edge := edges[k];
    EdgeLinesNext(edges, k, ids, marked);
    text' := text;
    if edge.from in ids && edge.to in ids {
      var line := EdgeLine(ids[edge.from], ids[edge.to], EdgeKey(edge.from, edge.to) in marked);
      RenderSnoc(style, EdgeLines(edges[..k], ids, marked), line);
      text' := text + Format(style, line);
    } else {
      assert EdgeLines(edges[..k], ids, marked) + [] == EdgeLines(edges[..k], ids, marked);
    }
  }

  /** The edges loop: an edge is written only when both ends have
      identifiers. */
  method WriteEdges(style: Style, edges: seq<Edge>, ids: map<string, string>, marked: set<string>)
    returns (text: string)
    ensures text == Render(style, EdgeLines(edges, ids, marked))
  {
    text := "";
    var k := 0;
    while k < |edges|
      invariant 0 <= k <= |edges|
      invariant text == Render(style, EdgeLines(edges[..k], ids, marked))
    {
      text := WriteEdge(style, edges, k, ids, marked, text);
      k := k + 1;
    }
    assert edges[..k] == edges;
  }

  /** The cycle-highlighting loops of graph_to_mermaid. */
  method WriteClasses(cycles: seq<seq<string>>, ids: map<string, string>) returns (text: string)
    ensures text == Render(Mermaid, ClassLines(cycles, ids))
  {
    text := "";
    var k := 0;
    while k < |cycles|
      invariant 0 <= k <= |cycles|
      invariant text == Render(Mermaid, ClassLines(cycles[..k], ids))
    {
      var more := WriteCycleClasses(cycles[k], ids);
      RenderConcat(Mermaid, ClassLines(cycles[..k], ids), CycleClassLines(cycles[k], ids));
      text := text + more;
      assert cycles[..k + 1][..k] == cycles[..k];
      k := k + 1;
    }
    assert cycles[..k] == cycles;
  }

  method WriteCycleClasses(cycle: seq<string>, ids: map<string, string>) returns (text: string)
    ensures text == Render(Mermaid, CycleClassLines(cycle, ids))
  {
    text := "";
    var i := 0;
    while i < |cycle|
      invariant 0 <= i <= |cycle|
      invariant text == Render(Mermaid, CycleClassLines(cycle[..i], ids))
    {
      var node := cycle[i];
      assert cycle[..i + 1][..i] == cycle[..i] && cycle[..i + 1][i] == node;
      if node in ids {
        assert CycleClassLines(cycle[..i + 1], ids) == CycleClassLines(cycle[..i], ids) + [ClassLine(ids[node])];
        RenderSnoc(Mermaid, CycleClassLines(cycle[..i], ids), ClassLine(ids[node]));
        text := text + Format(Mermaid, ClassLine(ids[node]));
      } else {
        assert CycleClassLines(cycle[..i + 1], ids) == CycleClassLines(cycle[..i], ids) + [];
        assert CycleClassLines(cycle[..i], ids) + [] == CycleClassLines(cycle[..i], ids);
      }
      i := i + 1;
    }
    assert cycle[..i] == cycle;
  }

  lemma {:induction false} RenderConcat(style: Style, a: seq<Line>, b: seq<Line>)
    ensures Render(style, a + b) == Render(style, a) + Render(style, b)
  {
    if b != [] {
      RenderConcat(style, a, b[..|b| - 1]);
      assert (a + b)[..|a + b| - 1] == a + b[..|b| - 1];
    } else {
      assert a + b == a;
    }
  }
}
