/** The include graph of GetDependencyGraphTool: the edges read from each
    file's #include directives or Python import statements, the graph
    build_graph assembles from them, and filter_by_depth. */
module DependencyGraph {
  import opened Text
  import opened Language
  import opened QueryEngine
  import opened FileSystem
  import opened Syntax

  /** DependencyEdge: `from` includes or imports `to` at 0-based row `line`. */
  datatype Edge = Edge(from: string, to: string, isSystem: bool, line: nat)

  /** FileNode: a file with the files it includes and the files that
      include it; build_graph leaves every layer at -1. */
  datatype FileNode = FileNode(filepath: string, includes: seq<string>, includedBy: seq<string>,
                               isSystem: bool, layer: int)

  /** The graph: std::map from path to node. */
  type Graph = map<string, FileNode>

  /** The names a node includes; none for a name the graph lacks (the
      graph.find guard before reading a node's includes). */
  function Successors(g: Graph, v: string): seq<string>
  {
    if v in g then g[v].includes else []
  }

  /** Number of occurrences of `x` in `s`. */
  function Occurrences<T(==)>(x: T, s: seq<T>): nat
  {
    if s == [] then 0
    else Occurrences(x, s[..|s| - 1]) + (if s[|s| - 1] == x then 1 else 0)
  }

  lemma {:induction false} OccurrencesPositive<T>(x: T, s: seq<T>)
    ensures x in s <==> Occurrences(x, s) > 0
  {
    if s != [] {
      OccurrencesPositive(x, s[..|s| - 1]);
      assert s == s[..|s| - 1] + [s[|s| - 1]];
    }
  }

  lemma OccurrencesPrefix<T>(x: T, s: seq<T>, j: nat)
    requires j < |s|
    ensures Occurrences(x, s[..j + 1]) == Occurrences(x, s[..j]) + (if s[j] == x then 1 else 0)
  {
    assert s[..j + 1][..j] == s[..j];
  }

  lemma {:induction false} OccurrencesOfPrefix<T>(x: T, s: seq<T>, j: nat)
    requires j <= |s|
    ensures Occurrences(x, s[..j]) <= Occurrences(x, s)
    decreases |s| - j
  {
    if j < |s| {
      OccurrencesPrefix(x, s, j);
      OccurrencesOfPrefix(x, s, j + 1);
    } else {
      assert s[..j] == s;
    }
  }

  // ---------------------------------------------------------------------
  // The text of an include directive and of an import statement

  datatype Target = Target(path: string, isSystem: bool)

  /** The path captured in a preproc_include: a system include when it
      starts with '<'; a leading '"' or '<' and the last character are
      removed (std::string::substr(1, length - 2)). */
  function IncludeTarget(text: string): (t: Target)
    ensures t.isSystem <==> text != [] && text[0] == '<'
    ensures text != [] && text[0] in {'"', '<'} && |text| >= 2 ==> text == [text[0]] + t.path + [text[|text| - 1]]
    ensures text != [] && text[0] in {'"', '<'} && |text| < 2 ==> t.path == []
    ensures text == [] || text[0] !in {'"', '<'} ==> t.path == text
  {
    var isSystem := text != [] && text[0] == '<';
    if text != [] && (text[0] == '"' || text[0] == '<') then
      Target(if |text| >= 2 then text[1..|text| - 1] else "", isSystem)
    else Target(text, isSystem)
  }

  /** The delimiters come off exactly: <p> is the system include p and
      "p" the user include p. */
  lemma IncludeTargetDelimited(p: string)
    ensures IncludeTarget("<" + p + ">") == Target(p, true)
    ensures IncludeTarget("\"" + p + "\"") == Target(p, false)
  {
    var a := "<" + p + ">";
    assert a[1..|a| - 1] == p;
    var b := "\"" + p + "\"";
    assert b[1..|b| - 1] == p;
  }

  const ModuleStops: set<char> := {' ', '\t', ','}

  /** The module an import statement names: the text after the first
      "import", without leading blanks, up to the first blank or comma;
      None where there is no "import" or nothing follows it. */
  function PythonModule(text: string): (r: Option<string>)
    ensures r.Some? ==> r.value != [] && forall i :: 0 <= i < |r.value| ==> r.value[i] !in ModuleStops
    ensures !Contains(text, "import") ==> r.None?
  {
    match Find(text, "import")
    case None => None
    case Some(pos) =>
      var rest := TrimLeft(text[pos + 6..], Blanks);
      var name := match FindFirstOf(rest, ModuleStops)
                  case None => rest
                  case Some(cut) => rest[..cut];
      if name == [] then None else Some(name)
  }

  /** TrimLeft removes exactly a leading run of the given characters. */
  lemma TrimLeftExact(ws: string, s: string, cs: set<char>)
    requires forall i :: 0 <= i < |ws| ==> ws[i] in cs
    requires s == [] || s[0] !in cs
    ensures TrimLeft(ws + s, cs) == s
  {
    var t := ws + s;
    var r := TrimLeft(t, cs);
    assert r == t[|ws|..];
  }

  lemma FindAtStart(s: string, pat: string)
    requires OccursAt(s, pat, 0)
    ensures Find(s, pat) == Some(0)
  {
  }

  /** The module name ends at the first stop character. */
  lemma CutAtStop(m: string, tail: string)
    requires m != [] && forall i :: 0 <= i < |m| ==> m[i] !in ModuleStops
    requires tail == [] || tail[0] in ModuleStops
    ensures (match FindFirstOf(m + tail, ModuleStops) case None => m + tail case Some(cut) => (m + tail)[..cut]) == m
  {
    var rest := m + tail;
    if tail == [] {
      assert rest == m;
    } else {
      assert rest[|m|] == tail[0];
      assert rest[..|m|] == m;
    }
  }

  /** PythonModule reads the module from what follows the first "import". */
  lemma PythonModuleAfter(text: string, after: string, m: string, tail: string)
    requires Find(text, "import") == Some(0) && text[6..] == after
    requires TrimLeft(after, Blanks) == m + tail
    requires m != [] && forall i :: 0 <= i < |m| ==> m[i] !in ModuleStops
    requires tail == [] || tail[0] in ModuleStops
    ensures PythonModule(text) == Some(m)
  {
    CutAtStop(m, tail);
  }

  /** `import m, …` and `import m as n` name m: the first module of the
      statement. */
  lemma PythonModuleOfImport(ws: string, m: string, tail: string)
    requires forall i :: 0 <= i < |ws| ==> ws[i] in Blanks
    requires m != [] && forall i :: 0 <= i < |m| ==> m[i] !in ModuleStops
    requires tail == [] || tail[0] in ModuleStops
    ensures PythonModule("import" + ws + m + tail) == Some(m)
  {
    var after := ws + (m + tail);
    var text := "import" + after;
    assert text == "import" + ws + m + tail;
    assert text[..6] == "import";
    FindAtStart(text, "import");
    assert text[6..] == after;
    TrimLeftExact(ws, m + tail, Blanks);
    PythonModuleAfter(text, after, m, tail);
  }

  // ---------------------------------------------------------------------
  // extract_includes

  /** The edges one include_path capture of the C++ include query gives. */
  function CppEdges(from: string, results: seq<QueryMatch>): (r: seq<Edge>)
  {
    if results == [] then []
    else
      var m := results[|results| - 1];
      var t := IncludeTarget(m.text);
      CppEdges(from, results[..|results| - 1])
      + (if m.captureName == "include_path" then [Edge(from, t.path, t.isSystem, m.line)] else [])
  }

  /** The edges the Python import_statement query gives: one per
      statement that names a module. */
  function PythonEdges(from: string, results: seq<QueryMatch>): (r: seq<Edge>)
  {
    if results == [] then []
    else
      var m := results[|results| - 1];
      PythonEdges(from, results[..|results| - 1])
      + (match PythonModule(m.text)
         case None => []
         case Some(name) => [Edge(from, name, false, m.line)])
  }

  function EdgesOf(from: string, lang: Lang, results: seq<QueryMatch>): seq<Edge>
  {
    match lang
    case CPP => CppEdges(from, results)
    case PYTHON => PythonEdges(from, results)
    case UNKNOWN => []
  }

  /** The loop of extract_includes over the query results. */
  method CollectFileEdges(from: string, lang: Lang, results: seq<QueryMatch>) returns (edges: seq<Edge>)
    ensures edges == EdgesOf(from, lang, results)
  {
    edges := [];
    var i := 0;
    while i < |results|
      invariant 0 <= i <= |results|
      invariant edges == EdgesOf(from, lang, results[..i])
    {
      var m := results[i];
      assert results[..i + 1][..i] == results[..i];
      if lang == CPP {
        if m.captureName == "include_path" {
          var t := IncludeTarget(m.text);
          edges := edges + [Edge(from, t.path, t.isSystem, m.line)];
        }
      } else if lang == PYTHON {
        var name := PythonModule(m.text);
        if name.Some? {
          edges := edges + [Edge(from, name.value, false, m.line)];
        }
      }
      i := i + 1;
    }
    assert results[..i] == results;
  }

  /** Every C++ include_path capture gives an edge from the file, in order:
      the i-th capture's edge follows the edges of the captures before it. */
  lemma {:induction false} CppEdgeOfCapture(from: string, results: seq<QueryMatch>, i: nat)
    requires i < |results| && results[i].captureName == "include_path"
    ensures |CppEdges(from, results[..i])| < |CppEdges(from, results)|
    ensures CppEdges(from, results)[|CppEdges(from, results[..i])|]
         == Edge(from, IncludeTarget(results[i].text).path, IncludeTarget(results[i].text).isSystem, results[i].line)
    decreases |results|
  {
    var last := |results| - 1;
    assert results[..last + 1] == results;
    if i == last {
      assert results[..i] == results[..last];
    } else {
      assert results[..last][..i] == results[..i];
      CppEdgeOfCapture(from, results[..last], i);
    }
  }

  /** Every edge leaves the file being read; a Python edge is never a
      system edge and always names a module. */
  lemma {:induction false} EdgesLeaveFile(from: string, lang: Lang, results: seq<QueryMatch>)
    ensures forall e :: e in EdgesOf(from, lang, results) ==> e.from == from
    ensures lang == PYTHON ==> forall e :: e in EdgesOf(from, lang, results) ==> !e.isSystem && e.to != []
    ensures lang == UNKNOWN ==> EdgesOf(from, lang, results) == []
  {
    if results != [] {
      EdgesLeaveFile(from, lang, results[..|results| - 1]);
    }
  }

  /** The outcome of extract_includes for one file: its edges, or an
      exception (the parser refuses an unknown language). */
  datatype Extraction = Extracted(edges: seq<Edge>) | Raised

  /** tree-sitter's parse_string, given as a function of the language and
      the source. */
  type Parser = (Lang, string) -> Option<Node>

  /** The results execute returns for the include query of a language on
      a parsed tree. */
  type IncludeQuery = (Lang, Node, string) -> seq<QueryMatch>

  /** extract_includes: an unreadable file has no edges; the parser of an
      unknown language throws; a failed parse has no edges; otherwise the
      edges of the query results, leaving the normalised path. */
  function ExtractIncludes(fs: FS, path: string, lang: Lang, parse: Parser, query: IncludeQuery,
                           normalize: string -> string): (x: Extraction)
    ensures ReadFile(fs, path).None? ==> x == Extracted([])
    ensures ReadFile(fs, path).Some? ==> (x.Raised? <==> lang == UNKNOWN)
    ensures x.Extracted? ==> forall e :: e in x.edges ==> e.from == normalize(path)
  {
    match ReadFile(fs, path)
    case None => Extracted([])
    case Some(src) =>
      if lang == UNKNOWN then Raised
      else match parse(lang, src)
        case None => Extracted([])
        case Some(tree) =>
          EdgesLeaveFile(normalize(path), lang, query(lang, tree, src));
          Extracted(EdgesOf(normalize(path), lang, query(lang, tree, src)))
  }

  function AllEdges(fs: FS, files: seq<string>, parse: Parser, query: IncludeQuery,
                    normalize: string -> string): seq<Edge>
  {
    if files == [] then []
    else
      var f := files[|files| - 1];
      AllEdges(fs, files[..|files| - 1], parse, query, normalize)
      + (match ExtractIncludes(fs, f, DetectFromExtension(f), parse, query, normalize)
         case Extracted(es) => es
         case Raised => [])
  }

  function FailedFiles(fs: FS, files: seq<string>, parse: Parser, query: IncludeQuery,
                       normalize: string -> string): nat
  {
    if files == [] then 0
    else
      var f := files[|files| - 1];
      FailedFiles(fs, files[..|files| - 1], parse, query, normalize)
      + (if ExtractIncludes(fs, f, DetectFromExtension(f), parse, query, normalize).Raised? then 1 else 0)
  }

  /** The loop of execute over the resolved files: the edges of every file
      in order, and the files processed and failed. */
  method CollectEdges(fs: FS, files: seq<string>, parse: Parser, query: IncludeQuery, normalize: string -> string)
    returns (all: seq<Edge>, processed: nat, failed: nat)
    ensures all == AllEdges(fs, files, parse, query, normalize)
    ensures failed == FailedFiles(fs, files, parse, query, normalize)
    ensures processed + failed == |files|
  {
    all := [];
    processed := 0;
    failed := 0;
    var i := 0;
    while i < |files|
      invariant 0 <= i <= |files|
      invariant all == AllEdges(fs, files[..i], parse, query, normalize)
      invariant failed == FailedFiles(fs, files[..i], parse, query, normalize)
      invariant processed + failed == i
    {
      all, processed, failed := CollectFile(fs, files, i, parse, query, normalize, all, processed, failed);
      i := i + 1;
    }
    assert files[..i] == files;
  }

  /** One file of the loop: its edges appended, or the failure counted. */
  method CollectFile(fs: FS, files: seq<string>, i: nat, parse: Parser, query: IncludeQuery,
                     normalize: string -> string, all: seq<Edge>, processed: nat, failed: nat)
    returns (all': seq<Edge>, processed': nat, failed': nat)
    requires i < |files|
    requires all == AllEdges(fs, files[..i], parse, query, normalize)
    requires failed == FailedFiles(fs, files[..i], parse, query, normalize)
    requires processed + failed == i
    ensures all' == AllEdges(fs, files[..i + 1], parse, query, normalize)
    ensures failed' == FailedFiles(fs, files[..i + 1], parse, query, normalize)
    ensures processed' + failed' == i + 1
  {
    var f := files[i];
    assert files[..i + 1][..i] == files[..i] && files[..i + 1][i] == f;
    var lang := DetectFromExtension(f);
    var x := ExtractIncludes(fs, f, lang, parse, query, normalize);
    if x.Extracted? {
      all', processed', failed' := all + x.edges, processed + 1, failed;
    } else {
      all', processed', failed' := all, processed, failed + 1;
    }
  }

  /** A file whose extension is unknown fails only when it can be read. */
  lemma UnknownReadableFails(fs: FS, f: string, parse: Parser, query: IncludeQuery, normalize: string -> string)
    requires DetectFromExtension(f) == UNKNOWN && ReadFile(fs, f).Some?
    ensures FailedFiles(fs, [f], parse, query, normalize) == 1
    ensures AllEdges(fs, [f], parse, query, normalize) == []
  {
    assert [f][..0] == [];
  }

  // ---------------------------------------------------------------------
  // build_graph

  /** The edges build_graph keeps: system edges only when asked for. */
  function Kept(edges: seq<Edge>, showSystem: bool): (r: seq<Edge>)
    ensures forall e :: e in r ==> e in edges && (showSystem || !e.isSystem)
  {
    if edges == [] then []
    else
      var e := edges[|edges| - 1];
      Kept(edges[..|edges| - 1], showSystem) + (if e.isSystem && !showSystem then [] else [e])
  }

  /** One step of build_graph: create missing endpoint nodes, then append
      the edge to the includes of its source and the included_by of its
      target. */
  function AddEdge(g: Graph, e: Edge): Graph
  {
    var g1 := if e.from in g then g else g[e.from := FileNode(e.from, [], [], false, -1)];
    var g2 := if e.to in g1 then g1 else g1[e.to := FileNode(e.to, [], [], e.isSystem, -1)];
    var g3 := g2[e.from := g2[e.from].(includes := g2[e.from].includes + [e.to])];
    g3[e.to := g3[e.to].(includedBy := g3[e.to].includedBy + [e.from])]
  }

  function GraphOf(kept: seq<Edge>): Graph
  {
    if kept == [] then map[] else AddEdge(GraphOf(kept[..|kept| - 1]), kept[|kept| - 1])
  }

  lemma AddEdgeSteps(g: Graph, g1: Graph, g2: Graph, h: Graph, e: Edge)
    requires g1 == if e.from in g then g else g[e.from := FileNode(e.from, [], [], false, -1)]
    requires g2 == if e.to in g1 then g1 else g1[e.to := FileNode(e.to, [], [], e.isSystem, -1)]
    requires h == var g3 := g2[e.from := g2[e.from].(includes := g2[e.from].includes + [e.to])];
                  g3[e.to := g3[e.to].(includedBy := g3[e.to].includedBy + [e.from])]
    ensures h == AddEdge(g, e)
  {
  }

  lemma KeptStep(edges: seq<Edge>, i: nat, showSystem: bool)
    requires i < |edges|
    ensures Kept(edges[..i + 1], showSystem)
         == Kept(edges[..i], showSystem) + (if edges[i].isSystem && !showSystem then [] else [edges[i]])
  {
    assert edges[..i + 1][..i] == edges[..i];
  }

  lemma GraphOfAppend(kept: seq<Edge>, e: Edge)
    ensures GraphOf(kept + [e]) == AddEdge(GraphOf(kept), e)
  {
    assert (kept + [e])[..|kept|] == kept;
  }

  /** The body of build_graph's loop for a kept edge: its ends become
      nodes if they are not yet, then the edge joins both lists. */
  method AddEdgeTo(g: Graph, e: Edge) returns (graph: Graph)
    ensures graph == AddEdge(g, e)
  {
    graph := g;
    if e.from !in graph {
      graph := graph[e.from := FileNode(e.from, [], [], false, -1)];
    }
    ghost var g1 := graph;
    if e.to !in graph {
      graph := graph[e.to := FileNode(e.to, [], [], e.isSystem, -1)];
    }
    ghost var g2 := graph;
    graph := graph[e.from := graph[e.from].(includes := graph[e.from].includes + [e.to])];
    graph := graph[e.to := graph[e.to].(includedBy := graph[e.to].includedBy + [e.from])];
    AddEdgeSteps(g, g1, g2, graph, e);
  }

  /** build_graph. */
  method BuildGraph(edges: seq<Edge>, showSystem: bool) returns (graph: Graph)
    ensures graph == GraphOf(Kept(edges, showSystem))
    ensures forall k :: k in graph <==> Mentions(Kept(edges, showSystem), k)
    ensures forall k :: k in graph ==> graph[k] == NodeOf(Kept(edges, showSystem), k)
    ensures Symmetric(graph) && Closed(graph)
    ensures !showSystem ==> forall k :: k in graph ==> !graph[k].isSystem
  {
    graph := map[];
    var i := 0;
    while i < |edges|
      invariant 0 <= i <= |edges|
      invariant graph == GraphOf(Kept(edges[..i], showSystem))
    {
      var e := edges[i];
      KeptStep(edges, i, showSystem);
      if !(e.isSystem && !showSystem) {
        GraphOfAppend(Kept(edges[..i], showSystem), e);
        graph := AddEdgeTo(graph, e);
      } else {
        assert Kept(edges[..i + 1], showSystem) == Kept(edges[..i], showSystem);
      }
      i := i + 1;
    }
    assert edges[..i] == edges;
    BuiltGraph(Kept(edges, showSystem), showSystem);
  }

  lemma BuiltGraph(kept: seq<Edge>, showSystem: bool)
    requires showSystem || forall e :: e in kept ==> !e.isSystem
    ensures forall k :: k in GraphOf(kept) <==> Mentions(kept, k)
    ensures forall k :: k in GraphOf(kept) ==> GraphOf(kept)[k] == NodeOf(kept, k)
    ensures Symmetric(GraphOf(kept)) && Closed(GraphOf(kept))
    ensures !showSystem ==> forall k :: k in GraphOf(kept) ==> !GraphOf(kept)[k].isSystem
  {
    GraphOfShape(kept);
    GraphOfSymmetric(kept);
    if !showSystem {
      forall k {
        NodeSystemOfUser(kept, k);
      }
    }
  }

  // ---------------------------------------------------------------------
  // What build_graph builds

  /** `k` is an endpoint of some edge. */
  predicate Mentions(es: seq<Edge>, k: string)
  {
    exists i :: 0 <= i < |es| && (es[i].from == k || es[i].to == k)
  }

  /** The targets of the edges leaving `u`, in edge order. */
  function Targets(es: seq<Edge>, u: string): seq<string>
  {
    if es == [] then []
    else Targets(es[..|es| - 1], u) + (if es[|es| - 1].from == u then [es[|es| - 1].to] else [])
  }

  /** The sources of the edges entering `v`, in edge order. */
  function Sources(es: seq<Edge>, v: string): seq<string>
  {
    if es == [] then []
    else Sources(es[..|es| - 1], v) + (if es[|es| - 1].to == v then [es[|es| - 1].from] else [])
  }

  /** A node is a system node when the first edge mentioning it is a
      system edge into it. */
  function NodeSystem(es: seq<Edge>, k: string): bool
  {
    if es == [] then false
    else
      var e := es[|es| - 1];
      if Mentions(es[..|es| - 1], k) then NodeSystem(es[..|es| - 1], k)
      else e.to == k && e.from != k && e.isSystem
  }

  function NodeOf(es: seq<Edge>, k: string): FileNode
  {
    FileNode(k, Targets(es, k), Sources(es, k), NodeSystem(es, k), -1)
  }

  lemma MentionsStep(es: seq<Edge>, k: string)
    requires es != []
    ensures Mentions(es, k) <==> Mentions(es[..|es| - 1], k) || es[|es| - 1].from == k || es[|es| - 1].to == k
  {
    var init := es[..|es| - 1];
    assert forall i :: 0 <= i < |init| ==> init[i] == es[i];
  }

  /** The nodes of the graph are the endpoints of the kept edges, and
      each node lists exactly the targets and sources of its edges, in
      edge order. */
  lemma {:induction false} GraphOfShape(es: seq<Edge>)
    ensures forall k :: k in GraphOf(es) <==> Mentions(es, k)
    ensures forall k :: k in GraphOf(es) ==> GraphOf(es)[k] == NodeOf(es, k)
  {
    if es != [] {
      var init := es[..|es| - 1];
      var e := es[|es| - 1];
      GraphOfShape(init);
      forall k
        ensures k in GraphOf(es) <==> Mentions(es, k)
        ensures k in GraphOf(es) ==> GraphOf(es)[k] == NodeOf(es, k)
      {
        MentionsStep(es, k);
        if !Mentions(init, k) {
          UnmentionedEmpty(init, k);
        }
      }
    }
  }

  lemma {:induction false} UnmentionedEmpty(es: seq<Edge>, k: string)
    requires !Mentions(es, k)
    ensures Targets(es, k) == [] && Sources(es, k) == [] && !NodeSystem(es, k)
  {
    if es != [] {
      MentionsStep(es, k);
      UnmentionedEmpty(es[..|es| - 1], k);
    }
  }

  /** Number of kept edges from `u` to `v`. */
  function Multiplicity(es: seq<Edge>, u: string, v: string): nat
  {
    if es == [] then 0
    else
      var e := es[|es| - 1];
      Multiplicity(es[..|es| - 1], u, v) + (if e.from == u && e.to == v then 1 else 0)
  }

  /** Appending at most one element adds its occurrence, if it is `x`. */
  lemma OccurrencesSnoc<T>(x: T, s: seq<T>, extra: seq<T>)
    requires |extra| <= 1
    ensures Occurrences(x, s + extra) == Occurrences(x, s) + (if extra != [] && extra[0] == x then 1 else 0)
  {
    if extra == [] {
      assert s + extra == s;
    } else {
      assert (s + extra)[..|s|] == s;
    }
  }

  lemma {:induction false} TargetsMultiplicity(es: seq<Edge>, u: string, v: string)
    ensures Occurrences(v, Targets(es, u)) == Multiplicity(es, u, v)
  {
    if es != [] {
      var init := es[..|es| - 1];
      var e := es[|es| - 1];
      TargetsMultiplicity(init, u, v);
      OccurrencesSnoc(v, Targets(init, u), if e.from == u then [e.to] else []);
    }
  }

  lemma {:induction false} SourcesMultiplicity(es: seq<Edge>, u: string, v: string)
    ensures Occurrences(u, Sources(es, v)) == Multiplicity(es, u, v)
  {
    if es != [] {
      var init := es[..|es| - 1];
      var e := es[|es| - 1];
      SourcesMultiplicity(init, u, v);
      OccurrencesSnoc(u, Sources(init, v), if e.to == v then [e.from] else []);
    }
  }

  /** Each kept edge from `u` to `v` is listed once among u's targets and
      once among v's sources. */
  lemma TargetsSources(es: seq<Edge>, u: string, v: string)
    ensures Occurrences(v, Targets(es, u)) == Occurrences(u, Sources(es, v))
  {
    TargetsMultiplicity(es, u, v);
    SourcesMultiplicity(es, u, v);
  }

  /** includes and included_by agree: u lists v as often as v lists u. */
  predicate Symmetric(g: Graph)
  {
    forall u, v :: u in g && v in g ==> Occurrences(v, g[u].includes) == Occurrences(u, g[v].includedBy)
  }

  /** Every name a node lists is itself a node. */
  predicate Closed(g: Graph)
  {
    forall u :: u in g ==> (forall v :: v in g[u].includes ==> v in g) && (forall v :: v in g[u].includedBy ==> v in g)
  }

  lemma {:induction false} TargetsMentioned(es: seq<Edge>, u: string, v: string)
    ensures v in Targets(es, u) ==> Mentions(es, v)
    ensures v in Sources(es, u) ==> Mentions(es, v)
  {
    if es != [] {
      var init := es[..|es| - 1];
      TargetsMentioned(init, u, v);
      MentionsStep(es, v);
    }
  }

  lemma GraphOfSymmetric(es: seq<Edge>)
    ensures Symmetric(GraphOf(es)) && Closed(GraphOf(es))
  {
    GraphOfShape(es);
    forall u, v | u in GraphOf(es) && v in GraphOf(es)
      ensures Occurrences(v, GraphOf(es)[u].includes) == Occurrences(u, GraphOf(es)[v].includedBy)
    {
      TargetsSources(es, u, v);
    }
    forall u, v | u in GraphOf(es)
      ensures v in GraphOf(es)[u].includes ==> v in GraphOf(es)
      ensures v in GraphOf(es)[u].includedBy ==> v in GraphOf(es)
    {
      TargetsMentioned(es, u, v);
    }
  }

  lemma {:induction false} NodeSystemOfUser(es: seq<Edge>, k: string)
    requires forall e :: e in es ==> !e.isSystem
    ensures !NodeSystem(es, k)
  {
    if es != [] {
      assert forall e :: e in es[..|es| - 1] ==> e in es;
      NodeSystemOfUser(es[..|es| - 1], k);
    }
  }

  /** The out-degree or the in-degree of a node. */
  function Degree(g: Graph, k: string, outgoing: bool): nat
    requires k in g
  {
    if outgoing then |g[k].includes| else |g[k].includedBy|
  }

  /** The sum of the out-degrees or of the in-degrees over a set of nodes. */
  ghost function Degrees(g: Graph, ks: set<string>, outgoing: bool): nat
    requires ks <= g.Keys
    decreases |ks|
  {
    if ks == {} then 0
    else
      var k :| k in ks;
      Degree(g, k, outgoing) + Degrees(g, ks - {k}, outgoing)
  }

  lemma {:induction false} DegreesPick(g: Graph, ks: set<string>, outgoing: bool, k: string)
    requires ks <= g.Keys && k in ks
    ensures Degrees(g, ks, outgoing) == Degree(g, k, outgoing) + Degrees(g, ks - {k}, outgoing)
    decreases |ks|
  {
    var j :| j in ks && Degrees(g, ks, outgoing) == Degree(g, j, outgoing) + Degrees(g, ks - {j}, outgoing);
    if j != k {
      DegreesPick(g, ks - {j}, outgoing, k);
      DegreesPick(g, ks - {k}, outgoing, j);
      assert ks - {j} - {k} == ks - {k} - {j};
    }
  }

  /** Degrees over the same set agree when the two graphs agree there. */
  lemma {:induction false} DegreesSame(g: Graph, h: Graph, ks: set<string>, outgoing: bool)
    requires ks <= g.Keys && ks <= h.Keys
    requires forall k :: k in ks ==> Degree(g, k, outgoing) == Degree(h, k, outgoing)
    ensures Degrees(g, ks, outgoing) == Degrees(h, ks, outgoing)
    decreases |ks|
  {
    if ks != {} {
      var k :| k in ks && Degrees(g, ks, outgoing) == Degree(g, k, outgoing) + Degrees(g, ks - {k}, outgoing);
      DegreesPick(h, ks, outgoing, k);
      DegreesSame(g, h, ks - {k}, outgoing);
    }
  }

  /** Adding an edge raises both degree sums by one. */
  lemma AddEdgeDegrees(g: Graph, e: Edge, outgoing: bool)
    ensures Degrees(AddEdge(g, e), AddEdge(g, e).Keys, outgoing) == Degrees(g, g.Keys, outgoing) + 1
  {
    var h := AddEdge(g, e);
    var k := if outgoing then e.from else e.to;
    var other := if outgoing then e.to else e.from;
    assert h.Keys == g.Keys + {e.from, e.to};
    assert Degree(h, k, outgoing) == (if k in g then Degree(g, k, outgoing) else 0) + 1;
    DegreesPick(h, h.Keys, outgoing, k);
    var rest := h.Keys - {k};
    var base := g.Keys - {k};
    if other != k && other !in g {
      assert Degree(h, other, outgoing) == 0;
      DegreesPick(h, rest, outgoing, other);
      assert rest - {other} == base;
    } else {
      assert rest == base;
    }
    assert forall x :: x in base ==> Degree(h, x, outgoing) == Degree(g, x, outgoing);
    DegreesSame(h, g, base, outgoing);
    if k in g {
      DegreesPick(g, g.Keys, outgoing, k);
    } else {
      assert base == g.Keys;
    }
  }

  /** Σ|includes| = Σ|included_by| = the number of kept edges. */
  lemma {:induction false} GraphOfDegrees(es: seq<Edge>)
    ensures Degrees(GraphOf(es), GraphOf(es).Keys, true) == |es|
    ensures Degrees(GraphOf(es), GraphOf(es).Keys, false) == |es|
  {
    if es != [] {
      GraphOfDegrees(es[..|es| - 1]);
      AddEdgeDegrees(GraphOf(es[..|es| - 1]), es[|es| - 1], true);
      AddEdgeDegrees(GraphOf(es[..|es| - 1]), es[|es| - 1], false);
    } else {
      assert GraphOf(es).Keys == {};
    }
  }

  // ---------------------------------------------------------------------
  // Reachability

  /** A walk along includes links. */
  ghost predicate Walk(g: Graph, p: seq<string>)
  {
    && p != []
    && forall i :: 0 <= i < |p| - 1 ==> p[i] in g && p[i + 1] in g[p[i]].includes
  }

  /** b is reached from a along includes links, in zero or more steps. */
  ghost predicate Reach(g: Graph, a: string, b: string)
  {
    exists p :: Walk(g, p) && p[0] == a && p[|p| - 1] == b
  }

  lemma ReachRefl(g: Graph, a: string)
    ensures Reach(g, a, a)
  {
    assert Walk(g, [a]);
  }

  lemma ReachEdge(g: Graph, a: string, b: string)
    requires b in Successors(g, a)
    ensures Reach(g, a, b)
  {
    assert Walk(g, [a, b]);
  }

  lemma ReachTrans(g: Graph, a: string, b: string, c: string)
    requires Reach(g, a, b) && Reach(g, b, c)
    ensures Reach(g, a, c)
  {
    var p :| Walk(g, p) && p[0] == a && p[|p| - 1] == b;
    var q :| Walk(g, q) && q[0] == b && q[|q| - 1] == c;
    var r := p + q[1..];
    assert Walk(g, r) by {
      forall i | 0 <= i < |r| - 1
        ensures r[i] in g && r[i + 1] in g[r[i]].includes
      {
        if i < |p| - 1 {
          assert r[i] == p[i] && r[i + 1] == p[i + 1];
        } else {
          assert r[i] == q[i - |p| + 1] && r[i + 1] == q[i - |p| + 2];
        }
      }
    }
    assert r[|r| - 1] == c by {
      if |q| == 1 {
        assert r == p;
      } else {
        assert r[|r| - 1] == q[|q| - 1];
      }
    }
  }

  /** No includes link leaves the set s. */
  ghost predicate SuccClosed(g: Graph, s: set<string>)
  {
    forall x, y :: x in s && y in Successors(g, x) ==> y in s
  }

  /** What is reached from a member of a set no link leaves lies in it. */
  lemma ReachClosed(g: Graph, s: set<string>, a: string, b: string)
    requires SuccClosed(g, s) && a in s && Reach(g, a, b)
    ensures b in s
  {
    var p :| Walk(g, p) && p[0] == a && p[|p| - 1] == b;
    WalkClosed(g, s, p, |p| - 1);
  }

  lemma {:induction false} WalkClosed(g: Graph, s: set<string>, p: seq<string>, i: nat)
    requires SuccClosed(g, s) && Walk(g, p) && p[0] in s && i < |p|
    ensures p[i] in s
  {
    if i > 0 {
      WalkClosed(g, s, p, i - 1);
      assert p[i] in Successors(g, p[i - 1]);
    }
  }

  // ---------------------------------------------------------------------
  // filter_by_depth

  /** The names within k includes-hops of the roots the graph holds:
      names a node includes count even when the graph does not hold them. */
  ghost function Within(g: Graph, roots: seq<string>, k: nat): set<string>
  {
    if k == 0 then set r | r in roots && r in g
    else
      var w := Within(g, roots, k - 1);
      w + (set x, s | x in w && x in g && s in g[x].includes :: s)
  }

  lemma {:induction false} WithinMonotone(g: Graph, roots: seq<string>, a: nat, b: nat)
    requires a <= b
    ensures Within(g, roots, a) <= Within(g, roots, b)
    decreases b - a
  {
    if a < b {
      WithinMonotone(g, roots, a, b - 1);
    }
  }

  /** Every name the search can meet: nodes, roots and included names. */
  function Universe(g: Graph, roots: seq<string>): set<string>
  {
    g.Keys + (set r | r in roots) + (set x, s | x in g && s in g[x].includes :: s)
  }

  /** Growing a set of names within a finite universe shrinks what is left. */
  lemma FewerLeft(u: set<string>, a: set<string>, b: set<string>)
    requires a <= b <= u
    ensures |u - b| <= |u - a|
    ensures a != b ==> |u - b| < |u - a|
  {
    assert u - a == (u - b) + (b - a);
    assert (u - b) !! (b - a);
    if a != b {
      var x :| x in b && x !in a;
      assert x in b - a;
    }
  }

  function QueueNodes(q: seq<(string, nat)>): set<string>
  {
    set i | 0 <= i < |q| :: q[i].0
  }

  lemma QueueNodesAppend(q: seq<(string, nat)>, x: (string, nat))
    ensures QueueNodes(q + [x]) == QueueNodes(q) + {x.0}
  {
    var q' := q + [x];
    assert q'[|q|] == x;
    forall v | v in QueueNodes(q)
      ensures v in QueueNodes(q')
    {
      var i :| 0 <= i < |q| && q[i].0 == v;
      assert q'[i] == q[i];
    }
  }

  lemma QueueNodesPop(q: seq<(string, nat)>)
    requires q != []
    ensures QueueNodes(q) == {q[0].0} + QueueNodes(q[1..])
  {
    forall v | v in QueueNodes(q)
      ensures v in {q[0].0} + QueueNodes(q[1..])
    {
      var i :| 0 <= i < |q| && q[i].0 == v;
      if i > 0 {
        assert q[1..][i - 1] == q[i];
      }
    }
    forall v | v in QueueNodes(q[1..])
      ensures v in QueueNodes(q)
    {
      var i :| 0 <= i < |q[1..]| && q[1..][i].0 == v;
      assert q[i + 1] == q[1..][i];
    }
  }

  /** What filter_by_depth has established about the names it visited,
      their depths and the nodes it has finished with. */
  ghost predicate Search(g: Graph, roots: seq<string>, maxDepth: int, visited: set<string>,
                         depth: map<string, nat>, done: set<string>)
  {
    && visited == depth.Keys
    && visited <= Universe(g, roots)
    && done <= visited
    && (forall v {:trigger Within(g, roots, depth[v])} :: v in visited ==> v in Within(g, roots, depth[v]))
    && (forall v :: v in visited ==> maxDepth < 0 || depth[v] <= maxDepth)
    && (forall r :: r in roots && r in g ==> r in visited && depth[r] == 0)
    && (forall x :: x in done && x in g && (maxDepth < 0 || depth[x] < maxDepth) ==>
          forall s :: s in g[x].includes ==> s in visited && depth[s] <= depth[x] + 1)
  }

  /** What one round of queueing the dependencies of a node at depth d
      achieves: each name not yet visited is appended to the queue one
      level deeper and marked visited; nothing else changes. */
  ghost predicate Expanded(deps: seq<string>, d: nat, queue: seq<(string, nat)>, visited: set<string>,
                           depth: map<string, nat>, queue': seq<(string, nat)>, visited': set<string>,
                           depth': map<string, nat>)
  {
    && visited == depth.Keys
    && visited' == visited + (set s | s in deps) && visited' == depth'.Keys
    && (forall v :: v in visited ==> depth'[v] == depth[v])
    && (forall v :: v in visited' && v !in visited ==> depth'[v] == d + 1)
    && |queue'| >= |queue| && queue'[..|queue|] == queue
    && (forall i :: |queue| <= i < |queue'| ==> queue'[i] == (queue'[i].0, d + 1) && queue'[i].0 !in visited)
    && QueueNodes(queue') == QueueNodes(queue) + (visited' - visited)
    && (visited' == visited ==> queue' == queue)
  }

  /** The inner loop of filter_by_depth over the includes of one node. */
  method Expand(deps: seq<string>, d: nat, queue: seq<(string, nat)>, visited: set<string>,
                ghost depth: map<string, nat>)
    returns (queue': seq<(string, nat)>, visited': set<string>, ghost depth': map<string, nat>)
    requires visited == depth.Keys
    ensures Expanded(deps, d, queue, visited, depth, queue', visited', depth')
  {
    queue', visited', depth' := queue, visited, depth;
    var j := 0;
    assert deps[..0] == [];
    while j < |deps|
      invariant 0 <= j <= |deps|
      invariant Expanded(deps[..j], d, queue, visited, depth, queue', visited', depth')
    {
      queue', visited', depth' := ExpandOne(deps, j, d, queue, visited, depth, queue', visited', depth');
      j := j + 1;
    }
    assert deps[..j] == deps;
  }

  /** One include: queued one level deeper unless already visited. */
  method ExpandOne(deps: seq<string>, j: nat, d: nat, queue: seq<(string, nat)>, visited: set<string>,
                   ghost depth: map<string, nat>, queue': seq<(string, nat)>, visited': set<string>,
                   ghost depth': map<string, nat>)
    returns (queue'': seq<(string, nat)>, visited'': set<string>, ghost depth'': map<string, nat>)
    requires j < |deps|
    requires Expanded(deps[..j], d, queue, visited, depth, queue', visited', depth')
    ensures Expanded(deps[..j + 1], d, queue, visited, depth, queue'', visited'', depth'')
  {
    var s := deps[j];
    assert deps[..j + 1] == deps[..j] + [s];
    queue'', visited'', depth'' := queue', visited', depth';
    if s !in visited' {
      QueueNodesAppend(queue', (s, d + 1));
      queue'' := queue' + [(s, d + 1)];
      visited'' := visited' + {s};
      depth'' := depth'[s := d + 1];
      assert queue''[..|queue|] == queue'[..|queue|];
    }
  }

  /** The queue of the search: it holds the visited names that are not
      finished, at their depths, in order of depth and no shallower than
      the level being finished; every finished name lies at most at that
      level and every visited name at most one deeper. */
  ghost predicate Layered(queue: seq<(string, nat)>, visited: set<string>, depth: map<string, nat>,
                          done: set<string>, level: nat)
  {
    && visited == depth.Keys
    && visited == done + QueueNodes(queue)
    && (forall i :: 0 <= i < |queue| ==> queue[i].0 in visited && queue[i].1 == depth[queue[i].0] && level <= queue[i].1)
    && (forall i, j :: 0 <= i < j < |queue| ==> queue[i].1 <= queue[j].1)
    && (forall p :: p in done ==> depth[p] <= level)
    && (forall v :: v in visited ==> depth[v] <= level + 1)
  }

  /** Popping the front of the queue and queueing its dependencies keeps
      the queue in order of depth. */
  lemma LayeredStep(queue: seq<(string, nat)>, visited: set<string>, depth: map<string, nat>,
                    done: set<string>, level: nat, deps: seq<string>,
                    queue': seq<(string, nat)>, visited': set<string>, depth': map<string, nat>)
    requires Layered(queue, visited, depth, done, level) && queue != []
    requires Expanded(deps, queue[0].1, queue[1..], visited, depth, queue', visited', depth')
    ensures Layered(queue', visited', depth', done + {queue[0].0}, queue[0].1)
  {
    var q1 := queue[1..];
    var d := queue[0].1;
    QueueNodesPop(queue);
    forall i | 0 <= i < |queue'|
      ensures queue'[i].0 in visited' && queue'[i].1 == depth'[queue'[i].0] && d <= queue'[i].1
    {
      if i < |q1| {
        assert queue'[i] == queue[i + 1];
      }
    }
    forall i, j | 0 <= i < j < |queue'|
      ensures queue'[i].1 <= queue'[j].1
    {
      if j < |q1| {
        assert queue'[i] == queue[i + 1] && queue'[j] == queue[j + 1];
      } else if i < |q1| {
        assert queue'[i] == queue[i + 1];
      }
    }
  }

  /** The first loop of filter_by_depth: every root the graph holds is
      queued at depth 0 (once per occurrence in the list of roots) and
      marked visited. */
  method Seed(graph: Graph, roots: seq<string>, maxDepth: int)
    returns (queue: seq<(string, nat)>, visited: set<string>, ghost depth: map<string, nat>)
    ensures Search(graph, roots, maxDepth, visited, depth, {})
    ensures Layered(queue, visited, depth, {}, 0)
  {
    queue, visited, depth := [], {}, map[];
    var r := 0;
    while r < |roots|
      invariant 0 <= r <= |roots|
      invariant visited == depth.Keys && visited == (set x | x in roots[..r] && x in graph)
      invariant forall v :: v in visited ==> depth[v] == 0
      invariant forall i :: 0 <= i < |queue| ==> queue[i] == (queue[i].0, 0)
      invariant QueueNodes(queue) == visited
    {
      assert roots[..r + 1] == roots[..r] + [roots[r]];
      if roots[r] in graph {
        QueueNodesAppend(queue, (roots[r], 0));
        queue := queue + [(roots[r], 0)];
        visited := visited + {roots[r]};
        depth := depth[roots[r] := 0];
      }
      r := r + 1;
    }
    assert roots[..r] == roots;
  }

  /** One round of the main loop of filter_by_depth: the front of the
      queue is finished, kept when the graph holds it, and its includes are
      queued unless it lies at the depth limit. */
  method Visit(graph: Graph, roots: seq<string>, maxDepth: int, queue: seq<(string, nat)>,
               visited: set<string>, ghost depth: map<string, nat>, ghost done: set<string>,
               ghost level: nat, filtered: Graph)
    returns (queue': seq<(string, nat)>, visited': set<string>, ghost depth': map<string, nat>,
             ghost done': set<string>, ghost level': nat, filtered': Graph)
    requires queue != []
    requires Progress(graph, roots, maxDepth, queue, visited, depth, done, level, filtered)
    ensures Progress(graph, roots, maxDepth, queue', visited', depth', done', level', filtered')
    ensures visited <= visited' <= Universe(graph, roots)
    ensures visited' == visited ==> |queue'| < |queue|
  {
    var cur := queue[0].0;
    var d := queue[0].1;
    filtered' := filtered;
    if cur in graph {
      filtered' := filtered'[cur := graph[cur]];
    }
    // past the depth limit, or not a node of the graph: nothing to queue
    var deps := if (maxDepth >= 0 && d >= maxDepth) || cur !in graph then [] else graph[cur].includes;
    queue', visited', depth' := Expand(deps, d, queue[1..], visited, depth);
    done' := done + {cur};
    level' := d;
    LayeredStep(queue, visited, depth, done, level, deps, queue', visited', depth');
    SearchStep(graph, roots, maxDepth, visited, depth, done, cur, deps, queue[1..], queue', visited', depth');
  }

  /** filter_by_depth: a breadth-first search from the roots the graph
      holds, along includes, expanding nodes shallower than maxDepth (every
      node when maxDepth < 0); it keeps the records of the nodes it reaches. */
  method FilterByDepth(graph: Graph, roots: seq<string>, maxDepth: int) returns (filtered: Graph)
    ensures forall x :: x in filtered ==> x in graph && filtered[x] == graph[x]
    ensures maxDepth >= 0 ==> forall x :: x in filtered <==> x in graph && x in Within(graph, roots, maxDepth)
    ensures maxDepth < 0 ==> forall x :: x in filtered <==> x in graph && Reachable(graph, roots, x)
  {
    var queue, visited;
    ghost var depth;
    queue, visited, depth := Seed(graph, roots, maxDepth);
    visited, depth, filtered := Drain(graph, roots, maxDepth, queue, visited, depth);
    FilterExact(graph, roots, maxDepth, visited, depth, filtered);
    if maxDepth < 0 {
      FilterExactUnbounded(graph, roots, maxDepth, visited, depth, filtered);
    }
  }

  /** The state of filter_by_depth between rounds: what the search has
      established, the queue in order of depth, and the kept records,
      which are those of the finished nodes of the graph. */
  ghost predicate Progress(g: Graph, roots: seq<string>, maxDepth: int, queue: seq<(string, nat)>,
                           visited: set<string>, depth: map<string, nat>, done: set<string>, level: nat,
                           filtered: Graph)
  {
    && Search(g, roots, maxDepth, visited, depth, done)
    && Layered(queue, visited, depth, done, level)
    && (forall p :: p in filtered <==> p in done && p in g)
    && (forall p :: p in filtered ==> filtered[p] == g[p])
  }

  /** The main loop of filter_by_depth: it runs until the queue is empty,
      when every visited name is finished. */
  method Drain(graph: Graph, roots: seq<string>, maxDepth: int, queue: seq<(string, nat)>,
               visited: set<string>, ghost depth: map<string, nat>)
    returns (visited': set<string>, ghost depth': map<string, nat>, filtered: Graph)
    requires Search(graph, roots, maxDepth, visited, depth, {})
    requires Layered(queue, visited, depth, {}, 0)
    ensures Search(graph, roots, maxDepth, visited', depth', visited')
    ensures forall p :: p in filtered <==> p in visited' && p in graph
    ensures forall p :: p in filtered ==> filtered[p] == graph[p]
  {
    var q := queue;
    visited', depth' := visited, depth;
    filtered := map[];
    ghost var done: set<string> := {};
    ghost var level: nat := 0;
    while q != []
      invariant Progress(graph, roots, maxDepth, q, visited', depth', done, level, filtered)
      decreases |Universe(graph, roots) - visited'|, |q|
    {
      ghost var visitedBefore := visited';
      q, visited', depth', done, level, filtered := Visit(graph, roots, maxDepth, q, visited', depth', done, level, filtered);
      FewerLeft(Universe(graph, roots), visitedBefore, visited');
    }
    Finished(graph, roots, maxDepth, visited', depth', done, level, filtered);
    assert Progress(graph, roots, maxDepth, q, visited', depth', visited', level, filtered);
  }

  /** With the queue empty every visited name is finished. */
  lemma Finished(g: Graph, roots: seq<string>, maxDepth: int, visited: set<string>, depth: map<string, nat>,
                 done: set<string>, level: nat, filtered: Graph)
    requires Progress(g, roots, maxDepth, [], visited, depth, done, level, filtered)
    ensures done == visited
  {
  }

  /** A name some number of includes-hops from the roots. */
  ghost predicate Reachable(g: Graph, roots: seq<string>, x: string)
  {
    exists k: nat :: x in Within(g, roots, k)
  }

  /** At the end of a depth-limited search the kept nodes are exactly the
      nodes of the graph within reach. */
  lemma FilterExact(graph: Graph, roots: seq<string>, maxDepth: int, visited: set<string>,
                    depth: map<string, nat>, filtered: Graph)
    requires Search(graph, roots, maxDepth, visited, depth, visited)
    requires forall p :: p in filtered <==> p in visited && p in graph
    ensures maxDepth >= 0 ==> forall x :: x in filtered <==> x in graph && x in Within(graph, roots, maxDepth)
  {
    forall x | x in visited
      ensures maxDepth >= 0 ==> x in Within(graph, roots, maxDepth)
    {
      VisitedWithin(graph, roots, maxDepth, visited, depth, x);
    }
    forall x | maxDepth >= 0 && x in Within(graph, roots, maxDepth)
      ensures x in visited
    {
      Reached(graph, roots, maxDepth, visited, depth, maxDepth, x);
    }
  }

  /** Without a limit the kept nodes are exactly the reachable ones. */
  lemma FilterExactUnbounded(graph: Graph, roots: seq<string>, maxDepth: int, visited: set<string>,
                             depth: map<string, nat>, filtered: Graph)
    requires Search(graph, roots, maxDepth, visited, depth, visited) && maxDepth < 0
    requires forall p :: p in filtered <==> p in visited && p in graph
    ensures forall x :: x in filtered <==> x in graph && Reachable(graph, roots, x)
  {
    forall x | x in visited
      ensures Reachable(graph, roots, x)
    {
      VisitedWithin(graph, roots, maxDepth, visited, depth, x);
    }
    forall x | Reachable(graph, roots, x)
      ensures x in visited
    {
      var k: nat :| x in Within(graph, roots, k);
      Reached(graph, roots, maxDepth, visited, depth, k, x);
    }
  }

  lemma VisitedWithin(graph: Graph, roots: seq<string>, maxDepth: int, visited: set<string>,
                      depth: map<string, nat>, x: string)
    requires Search(graph, roots, maxDepth, visited, depth, visited) && x in visited
    ensures x in Within(graph, roots, depth[x])
    ensures maxDepth >= 0 ==> x in Within(graph, roots, maxDepth)
  {
    if maxDepth >= 0 {
      WithinMonotone(graph, roots, depth[x], maxDepth);
    }
  }

  /** Finishing one node keeps what the search has established. */
  lemma SearchStep(g: Graph, roots: seq<string>, maxDepth: int, visited: set<string>, depth: map<string, nat>,
                   done: set<string>, cur: string, deps: seq<string>, queue: seq<(string, nat)>,
                   queue': seq<(string, nat)>, visited': set<string>, depth': map<string, nat>)
    requires Search(g, roots, maxDepth, visited, depth, done)
    requires cur in visited && forall v :: v in visited ==> depth[v] <= depth[cur] + 1
    requires deps == if (maxDepth >= 0 && depth[cur] >= maxDepth) || cur !in g then [] else g[cur].includes
    requires Expanded(deps, depth[cur], queue, visited, depth, queue', visited', depth')
    ensures Search(g, roots, maxDepth, visited', depth', done + {cur})
  {
    FinishedIncludes(g, maxDepth, visited, depth, done, cur, deps, queue, queue', visited', depth');
    ReachedStep(g, roots, maxDepth, visited, depth, cur, deps, queue, queue', visited', depth');
  }

  /** The names first visited from `cur` lie one hop further than it,
      among the names the search can meet. */
  lemma ReachedStep(g: Graph, roots: seq<string>, maxDepth: int, visited: set<string>, depth: map<string, nat>,
                    cur: string, deps: seq<string>, queue: seq<(string, nat)>,
                    queue': seq<(string, nat)>, visited': set<string>, depth': map<string, nat>)
    requires visited == depth.Keys && cur in visited && visited <= Universe(g, roots)
    requires forall v {:trigger Within(g, roots, depth[v])} :: v in visited ==> v in Within(g, roots, depth[v])
    requires deps == if (maxDepth >= 0 && depth[cur] >= maxDepth) || cur !in g then [] else g[cur].includes
    requires Expanded(deps, depth[cur], queue, visited, depth, queue', visited', depth')
    ensures visited' <= Universe(g, roots)
    ensures forall v {:trigger Within(g, roots, depth'[v])} :: v in visited' ==> v in Within(g, roots, depth'[v])
  {
    var d := depth[cur];
    assert cur in Within(g, roots, d);
    forall v | v in visited'
      ensures v in Within(g, roots, depth'[v])
    {
      if v !in visited {
        assert v in g[cur].includes;
      }
    }
  }

  /** The includes of every finished node that was expanded have been
      visited, at most one level deeper. */
  lemma FinishedIncludes(g: Graph, maxDepth: int, visited: set<string>, depth: map<string, nat>,
                         done: set<string>, cur: string, deps: seq<string>, queue: seq<(string, nat)>,
                         queue': seq<(string, nat)>, visited': set<string>, depth': map<string, nat>)
    requires visited == depth.Keys && done <= visited && cur in visited
    requires forall x :: x in done && x in g && (maxDepth < 0 || depth[x] < maxDepth) ==>
               forall s :: s in g[x].includes ==> s in visited && depth[s] <= depth[x] + 1
    requires forall v :: v in visited ==> depth[v] <= depth[cur] + 1
    requires deps == if (maxDepth >= 0 && depth[cur] >= maxDepth) || cur !in g then [] else g[cur].includes
    requires Expanded(deps, depth[cur], queue, visited, depth, queue', visited', depth')
    ensures forall x :: x in done + {cur} && x in g && (maxDepth < 0 || depth'[x] < maxDepth) ==>
              forall s :: s in g[x].includes ==> s in visited' && depth'[s] <= depth'[x] + 1
  {
    forall x, s | x in done + {cur} && x in g && (maxDepth < 0 || depth'[x] < maxDepth) && s in g[x].includes
      ensures s in visited' && depth'[s] <= depth'[x] + 1
    {
      assert depth'[x] == depth[x];
      if x == cur {
        assert s in deps;
      }
    }
  }

  /** Once every visited node is finished, every name within k hops (k
      no deeper than the limit) has been visited at depth at most k. */
  lemma {:induction false} Reached(g: Graph, roots: seq<string>, maxDepth: int, visited: set<string>,
                                   depth: map<string, nat>, k: nat, x: string)
    requires Search(g, roots, maxDepth, visited, depth, visited)
    requires x in Within(g, roots, k) && (maxDepth < 0 || k <= maxDepth)
    ensures x in visited && depth[x] <= k
    decreases k
  {
    if k > 0 {
      var w := Within(g, roots, k - 1);
      if x !in w {
        var y :| y in w && y in g && x in g[y].includes;
        Reached(g, roots, maxDepth, visited, depth, k - 1, y);
      } else {
        Reached(g, roots, maxDepth, visited, depth, k - 1, x);
      }
    }
  }
}
