/** execute of the dependency-graph tool: resolve the inputs, collect the
    include edges of every file, build the graph, optionally filter it by
    depth from the inputs, optionally detect cycles, compute the layers,
    and render the requested format. */
module DependencyTool {
  import opened Text
  import opened FileSystem
  import opened Ordering
  import opened PathResolver
  import opened DependencyGraph
  import opened DependencyCycles
  import opened DependencyLayers
  import opened DependencyRender

  /** The tool's arguments; an absent optional field takes its default. */
  datatype Args = Args(
    filepath: Option<seq<string>>,
    showSystemIncludes: Option<bool>,
    detectCycles: Option<bool>,
    maxDepth: Option<int>,
    outputFormat: Option<string>,
    recursive: Option<bool>,
    filePatterns: Option<seq<string>>)

  const DefaultPatterns: seq<string> := ["*.cpp", "*.hpp", "*.h", "*.cc", "*.cxx", "*.py"]

  function OrDefault<T>(o: Option<T>, d: T): T
  {
    match o
    case Some(v) => v
    case None => d
  }

  function Patterns(a: Args): seq<string>
  {
    OrDefault(a.filePatterns, DefaultPatterns)
  }

  /** What execute returns: an error, a rendered graph with its counters,
      or the graph itself for the JSON report. */
  datatype Outcome =
    | Failure(error: string, hasSuccessField: bool)
    | Rendered(format: string, content: string, totalFiles: nat, totalDependencies: nat, cyclesFound: nat)
    | Report(graph: Graph, edges: seq<Edge>, cycles: seq<seq<string>>, layers: map<int, seq<string>>,
             totalFiles: nat, filesFailed: nat)

  const MissingFilepath := "Missing required parameter: filepath"
  const NothingResolved := "Failed to resolve any files from filepath"

  /** execute. `canonical` and `normalize` stand for
      std::filesystem::canonical and normalize_path, which depend on the
      process's working directory; `parse` and `query` stand for
      tree-sitter. The ghost outputs are the analysed graph, its cycles and
      its layers and the layer of each node, which the Mermaid and DOT text and
      the JSON report describe. */
  method Execute(fs: FS, a: Args, parse: Parser, query: IncludeQuery,
                 canonical: string -> string, normalize: string -> string)
    returns (out: Outcome, ghost graph: Graph, ghost cycles: seq<seq<string>>,
             ghost layers: map<int, seq<string>>, ghost nodeLayers: map<string, int>)
    requires AllPlain(Patterns(a))
    ensures a.filepath.None? <==> out == Failure(MissingFilepath, false)
    ensures a.filepath.Some? ==>
      (out == Failure(NothingResolved, true) <==>
         Resolved(fs, a.filepath.value, OrDefault(a.recursive, true), Patterns(a), canonical) == {})
    ensures a.filepath.Some? && Resolved(fs, a.filepath.value, OrDefault(a.recursive, true), Patterns(a), canonical) != {} ==>
      !out.Failure?
    ensures !out.Failure? ==>
      var files := InOrder(Resolved(fs, a.filepath.value, OrDefault(a.recursive, true), Patterns(a), canonical), ComparePaths);
      var edges := AllEdges(fs, files, parse, query, normalize);
      var built := GraphOf(Kept(edges, OrDefault(a.showSystemIncludes, false)));
      var format := OrDefault(a.outputFormat, "json");
      var maxDepth := OrDefault(a.maxDepth, -1);
      && Analysed(built, RootsOf(files, normalize), maxDepth, OrDefault(a.detectCycles, true), graph, cycles, layers, nodeLayers)
      && (maxDepth < 0 ==> AfterIncluders(graph, nodeLayers))
      && (out.Rendered? <==> format in {"mermaid", "dot"})
      && (out.Rendered? ==> out.format == format
                            && out.totalFiles + FailedFiles(fs, files, parse, query, normalize) == |files|
                            && out.totalDependencies == |edges|
                            && out.cyclesFound == |cycles|)
      && (format == "mermaid" ==> out.content == MermaidText(InOrder(graph.Keys, false), edges, cycles))
      && (format == "dot" ==> out.content == DotText(InOrder(graph.Keys, false), edges, cycles))
      && (out.Report? ==> out == Report(graph, edges, cycles, layers, out.totalFiles, out.filesFailed)
                          && out.totalFiles + out.filesFailed == |files|
                          && out.filesFailed == FailedFiles(fs, files, parse, query, normalize))
  {
    if a.filepath.None? {
      out := Failure(MissingFilepath, false);
      graph, cycles, layers, nodeLayers := map[], [], map[], map[];
      return;
    }
    var showSystem := OrDefault(a.showSystemIncludes, false);
    var detect := OrDefault(a.detectCycles, true);
    var maxDepth := OrDefault(a.maxDepth, -1);
    var format := OrDefault(a.outputFormat, "json");
    var recursive := OrDefault(a.recursive, true);
    var patterns := Patterns(a);

    var resolved := ResolvePaths(fs, a.filepath.value, recursive, patterns, canonical);
    ghost var found := Resolved(fs, a.filepath.value, recursive, patterns, canonical);
    SortedIsInOrder(resolved, found);
    if resolved == [] {
      out := Failure(NothingResolved, true);
      graph, cycles, layers, nodeLayers := map[], [], map[], map[];
      return;
    }

    var edges, processed, failed := CollectEdges(fs, resolved, parse, query, normalize);
    var built := BuildGraph(edges, showSystem);
    var g, cs, ls;
    g, cs, ls, nodeLayers := Analyse(built, resolved, normalize, maxDepth, detect);
    graph, cycles, layers := g, cs, ls;
    out := Present(format, g, edges, cs, ls, processed, failed);
  }

  /** What the middle of execute promises about its results: `graph` is
      `built` cut down to the files within `maxDepth` include steps of the
      roots (all of it when `maxDepth` is negative); `cycles` are the
      strongly connected groups of more than one file, each listed once,
      disjoint and maximal, all of them when `detect` is set and none
      otherwise; `layers` lists each node under
      the layer `nodeLayers` gives it, roots at layer 0 and every file
      after the files that include it. */
  ghost predicate Analysed(built: Graph, roots: seq<string>, maxDepth: int, detect: bool, graph: Graph,
                           cycles: seq<seq<string>>, layers: map<int, seq<string>>, nodeLayers: map<string, int>)
  {
    && (forall k :: k in graph ==> k in built && graph[k] == built[k])
    && (maxDepth < 0 ==> graph == built)
    && (maxDepth >= 0 ==> forall x :: x in graph <==> x in built && x in Within(built, roots, maxDepth))
    && (!detect ==> cycles == [])
    && (forall c :: c in cycles ==> |c| > 1)
    && (forall c, x, y :: c in cycles && x in c && y in c ==> Reach(graph, x, y))
    && Distinct(Flat(cycles))
    && (forall c, x, z :: c in cycles && x in c && Reach(graph, x, z) && Reach(graph, z, x) ==> z in c)
    && (detect ==> forall x, y :: x != y && Reach(graph, x, y) && Reach(graph, y, x) ==>
          exists c :: c in cycles && x in c && y in c)
    && (forall v :: v in nodeLayers ==> v in graph && nodeLayers[v] >= 0)
    && (forall v, layer :: v in Slot(layers, layer) <==> v in nodeLayers && nodeLayers[v] == layer)
    && (forall layer :: Distinct(Slot(layers, layer)))
    && (forall v :: v in graph && graph[v].includedBy == [] ==> v in nodeLayers && nodeLayers[v] == 0)
    && (Symmetric(graph) && Closed(graph) ==> AfterIncluders(graph, nodeLayers))
    && (Symmetric(graph) && Closed(graph) && Acyclic(graph) ==> nodeLayers.Keys == graph.Keys)
  }

  /** The middle of execute: the depth filter when max_depth is set, cycle
      detection when asked for, and the layers. */
  method Analyse(built: Graph, resolved: seq<string>, normalize: string -> string, maxDepth: int, detect: bool)
    returns (graph: Graph, cycles: seq<seq<string>>, layers: map<int, seq<string>>, ghost nodeLayers: map<string, int>)
    ensures Analysed(built, RootsOf(resolved, normalize), maxDepth, detect, graph, cycles, layers, nodeLayers)
  {
    graph := built;
    if maxDepth >= 0 {
      var roots := Normalized(resolved, normalize);
      graph := FilterByDepth(graph, roots, maxDepth);
    }
    cycles := [];
    if detect {
      ghost var sccs;
      cycles, sccs := DetectCycles(graph);
    }
    layers, nodeLayers := ComputeLayers(graph);
  }

  /** The last step of execute: Mermaid or DOT text with its counters for
      those two formats, the JSON report for any other. */
  method Present(format: string, graph: Graph, edges: seq<Edge>, cycles: seq<seq<string>>,
                 layers: map<int, seq<string>>, processed: nat, failed: nat)
    returns (out: Outcome)
    ensures out.Rendered? <==> format in {"mermaid", "dot"}
    ensures out.Rendered? ==> out.format == format && out.totalFiles == processed
                              && out.totalDependencies == |edges| && out.cyclesFound == |cycles|
    ensures out.Rendered? && format == "mermaid" ==> out.content == MermaidText(InOrder(graph.Keys, false), edges, cycles)
    ensures out.Rendered? && format == "dot" ==> out.content == DotText(InOrder(graph.Keys, false), edges, cycles)
    ensures !out.Rendered? ==> out == Report(graph, edges, cycles, layers, processed, failed)
  {
    if format == "mermaid" {
      var content := GraphToMermaid(graph, edges, cycles);
      out := Rendered("mermaid", content, processed, |edges|, |cycles|);
    } else if format == "dot" {
      var content := GraphToDot(graph, edges, cycles);
      out := Rendered("dot", content, processed, |edges|, |cycles|);
    } else {
      out := Report(graph, edges, cycles, layers, processed, failed);
    }
  }

  /** The root files of the depth filter: the normalised resolved paths. */
  function RootsOf(paths: seq<string>, normalize: string -> string): seq<string>
  {
    seq(|paths|, i requires 0 <= i < |paths| => normalize(paths[i]))
  }

  method Normalized(paths: seq<string>, normalize: string -> string) returns (roots: seq<string>)
    ensures |roots| == |paths| && forall i :: 0 <= i < |paths| ==> roots[i] == normalize(paths[i])
    ensures roots == RootsOf(paths, normalize)
  {
    roots := [];
    var i := 0;
    while i < |paths|
      invariant 0 <= i <= |paths|
      invariant |roots| == i && forall j :: 0 <= j < i ==> roots[j] == normalize(paths[j])
    {
      roots := roots + [normalize(paths[i])];
      i := i + 1;
    }
  }

  /** A sorted sequence is the one way of listing its elements in order. */
  lemma SortedIsInOrder(r: seq<string>, s: set<string>)
    requires Sorted(r, ComparePaths) && Elems(r) == s
    ensures r == InOrder(s, ComparePaths)
    ensures r == [] <==> s == {}
  {
    InOrderSorted(s, ComparePaths);
    SortedUnique(r, InOrder(s, ComparePaths), ComparePaths);
  }
}
