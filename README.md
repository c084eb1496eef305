# cpp_sitter, modelled in Dafny

cpp_sitter is an MCP (Model Context Protocol) server. It answers JSON-RPC 2.0 requests by running code-analysis tools over C++ and Python sources that tree-sitter has parsed. This project models the deterministic logic those tools build on top of tree-sitter, and proves what that logic computes.

One module per source file, one file per module:

- `text.dfy` (`Text`): the `std::string` operations the tools use, such as `find`, `find_first_of`, trimming, case mapping and `std::getline` splitting.
- `ordering.dfy` (`Ordering`): the key order of `std::map`/`std::set` and the iteration order it gives.
- `syntax.dfy` (`Syntax`): a syntax-tree node as a value, with its kind, byte range, start and end points, children and field links; the pre-order walk of the tree cursor.
- `filesystem.dfy` (`FileSystem`): the filesystem as a map from path to entry (kind, modification time, contents).
- `language.dfy` (`Language`): `detect_from_extension`, `to_string`, `from_string` and `get_extensions`.
- `query_engine.dfy` (`QueryEngine`): the predefined query catalogue and the flattening of query matches into results.
- `ast_analyzer.dfy` (`ASTAnalyzer`): the per-file parse cache as a class (`Analyzer`) whose `cache` map is updated in place, plus the batch aggregators.
- `path_resolver.dfy` (`PathResolver`): glob matching on the base name, directory scans and the sorted, de-duplicated result of `resolve_paths`.
- `dependency_graph.dfy`, `dependency_cycles.dfy`, `dependency_layers.dfy`, `dependency_render.dfy`, `dependency_tool.dfy`: the get_dependency_graph tool. They cover include/import extraction, `build_graph`, Tarjan's strongly connected components, Kahn layering, the depth filter, the Mermaid and DOT renderers, and `execute`.
- `class_hierarchy.dfy`, `class_hierarchy_tool.dfy`: the get_class_hierarchy tool. They cover per-file class analysis (bases, virtual methods, access), the cross-file merge, the children map, the two-way depth filter and the JSON entries.
- `file_summary.dfy`, `comment_markers.dfy`: the get_file_summary tool. They cover line metrics, complexity, imports, docstring stripping and comment markers.
- `symbol_context.dfy` (`SymbolContext`): the get_symbol_context tool. It covers symbol location, signatures, dependencies, context windows and usage examples.
- `find_references.dfy` (`FindReferences`): the find_references tool. It covers matching, classification, the context line, the parent scope and the counters.
- `extract_interface.dfy`, `extract_interface_tool.dfy`: the extract_interface tool. They cover signatures, decorators, access specifiers, the private filter, the header rendering and the batch.
- `mcp_server.dfy` (`McpServer`): the server as a class. It covers `register_tool`, the JSON-RPC dispatch in `handle_request`, tools/list, tools/call, `create_error_response`, and the main loop over a given sequence of incoming messages.

Tree-sitter parsing and queries are given, not computed. A parser is a function from source to an optional tree, and a query's output is a given sequence of matches, each a sequence of captures. Operations that loop or update state in the source are methods with loops, proved against functions that state what they compute. Operations that are pure in the source are functions, and lemmas relate them to independent descriptions of their meaning.

Where the code and its evident intent differ, the tools' pipelines follow the code as written. A corrected definition stands beside each one, with the intended property proved about it (see "## Findings").

## Model

| member | source | states |
|---|---|---|
| Language.Extension | src/core/Language.cpp:18 | the extension of `path::extension`: empty or a single leading dot with no further dot or '/', and a suffix of the path |
| Language.LanguageOfExtension | src/core/Language.cpp:27-39 | CPP exactly for the ten C++ extensions, PYTHON exactly for the three Python ones |
| Language.DetectMeaning | src/core/Language.cpp:13-40 | an empty path or one without extension is UNKNOWN; CPP (PYTHON) exactly when the lower-cased extension is in the C++ (Python) list |
| Language.DetectIgnoresCase | src/core/Language.cpp:23-25 | paths equal up to ASCII letter case are detected as the same language |
| Language.ExtensionsDetect | src/core/Language.cpp:91-101 | every extension get_extensions lists, appended to a file name, is detected as that language |
| Language.UnknownHasNoExtensions | src/core/Language.cpp:97-99 | UNKNOWN lists no extensions |
| Language.FromString | src/core/Language.cpp:70-89 | CPP exactly for the lower-cased aliases cpp, c++, cxx, cplusplus, c; PYTHON exactly for python, py |
| Language.FromStringToString | src/core/Language.cpp:58-89 | from_string inverts to_string on every language |
| Language.ToStringInjective | src/core/Language.cpp:58-68 | to_string gives the three languages distinct names |
| Language.FromStringIgnoresCase | src/core/Language.cpp:71-75 | names equal up to letter case give the same language |
| Language.ExtensionLower | src/core/Language.cpp:18-25 | lower-casing the path lower-cases its extension |
| Text.Find | src/tools/GetDependencyGraphTool.cpp:267 | std::string::find: the result is an occurrence of the pattern and no earlier index holds one; none means no index holds one |
| Text.ContainsIff | src/tools/FindReferencesTool.cpp:169 | `find(pat) != npos` holds exactly when the pattern occurs somewhere in the text |
| Text.FindFirstOf | src/tools/GetDependencyGraphTool.cpp:273 | find_first_of: the result holds a member of the set and no earlier index does; none means no index does |
| Text.ToUpper | src/tools/ExtractInterfaceTool.cpp:574 | std::transform with ::toupper: same length, each character mapped on its own |
| Text.TrimLeft | src/tools/FindReferencesTool.cpp:324 | `erase(0, find_first_not_of(cs))`: a suffix of the text whose dropped prefix is all in `cs` and whose first character is not |
| Text.TrimRight | src/tools/FindReferencesTool.cpp:325 | `erase(find_last_not_of(cs) + 1)`: a prefix whose dropped suffix is all in `cs` and whose last character is not |
| Text.TrimEnds | src/tools/GetFileSummaryTool.cpp:596-597 | the trimmed text starts with no blank and ends with no blank or line end |
| Text.Lines | src/tools/GetFileSummaryTool.cpp:587 | no piece std::getline yields holds a line break |
| Text.LinesRoundTrip | src/tools/GetFileSummaryTool.cpp:587 | joining the pieces getline yields, each followed by a line break, gives back the text, with one line break added when it had no final one |
| Text.LinesCount | src/tools/GetSymbolContextTool.cpp:762 | getline yields one piece per line break plus one for an unterminated last line |
| Ordering.LessTransitive | src/tools/GetDependencyGraphTool.cpp:299 | the key order of std::map / std::set<path> is transitive |
| Ordering.LessTotal | src/tools/GetDependencyGraphTool.cpp:299 | any two distinct keys are ordered one way or the other |
| Ordering.SortedUnique | src/tools/GetDependencyGraphTool.cpp:299 | two strictly sorted lists of the same keys are equal: an ordered container has one iteration order |
| Ordering.Insert | src/core/PathResolver.cpp:103 | std::set::insert keeps the elements strictly sorted and adds exactly the new element |
| Ordering.Least | src/core/PathResolver.cpp:103 | a non-empty ordered set has a first element, below every other |
| Ordering.InOrderSorted | src/tools/GetDependencyGraphTool.cpp:299 | the iteration order of an ordered container lists exactly its keys, strictly increasing |
| Syntax.ChildByField | src/tools/GetSymbolContextTool.cpp:267 | ts_node_child_by_field_name yields one of the node's children, or nothing |
| Syntax.FirstChildOfKind | src/tools/GetFileSummaryTool.cpp:427-446 | the first child of the given kind: it has that kind and no earlier child does; none means no child does |
| Syntax.WalkAllStep | src/tools/FindReferencesTool.cpp:184-223 | one step of the cursor walk visits the current node, then its children in order, then the rest |
| Syntax.WalkSize | src/tools/FindReferencesTool.cpp:184-223 | the pre-order walk visits each node of the subtree once |
| FileSystem.DirectEntriesIncluded | src/core/PathResolver.cpp:41-95 | a recursive directory scan yields every direct entry of the directory |
| PathResolver.StarMatches | src/core/PathResolver.cpp:26-27 | "*" (the regex ".*") matches exactly the names without line breaks, the empty name included |
| PathResolver.LiteralMatchesItself | src/core/PathResolver.cpp:28-37 | a pattern without wildcards, '.' escaped, matches exactly itself: the regex is anchored at both ends |
| PathResolver.StarLiteral | src/core/PathResolver.cpp:24-38 | "*" followed by a literal matches exactly the names ending in the literal after a run without line breaks ("*.cpp" never matches "a.cpp.bak") |
| PathResolver.NoStarLength | src/core/PathResolver.cpp:30-31 | without '*', each '?' stands for one character, so a match has the pattern's length |
| PathResolver.MatchesBaseNameOnly | src/core/PathResolver.cpp:38 | only the last path component is matched: the directory part never changes the outcome |
| PathResolver.MatchesAny | src/core/PathResolver.cpp:59-65 | the pattern loop reports a match exactly when some pattern matches the file name |
| PathResolver.SelectedIff | src/core/PathResolver.cpp:54-70 | a path is collected exactly when it is a listed entry, a regular file and matched by some pattern |
| PathResolver.ScanDirectory | src/core/PathResolver.cpp:41-95 | appends to the results exactly the matching regular files of the directory, in iteration order; nothing when the path is not a directory |
| PathResolver.SelectEntry | src/core/PathResolver.cpp:55-69 | one loop iteration adds the entry exactly when it is a regular file matching a pattern |
| PathResolver.ScanFlat | src/core/PathResolver.cpp:73-90 | a non-recursive scan yields exactly the matching regular files among the direct entries |
| PathResolver.ScanRecursiveCoversFlat | src/core/PathResolver.cpp:53-71 | a recursive scan finds everything a flat scan finds |
| PathResolver.InsertAll | src/core/PathResolver.cpp:133-139 | inserting every canonicalised scan result keeps the set sorted and adds exactly those paths |
| PathResolver.AddInput | src/core/PathResolver.cpp:105-143 | one input adds nothing when missing, its canonical path when it is a matching regular file, the canonical scan results when it is a directory, nothing otherwise |
| PathResolver.ResolvePaths | src/core/PathResolver.cpp:97-152 | the result is strictly sorted (hence duplicate-free) and holds exactly the canonical paths the inputs contribute |
| PathResolver.MissingInputIgnored | src/core/PathResolver.cpp:108-111 | an input that does not exist contributes nothing |
| PathResolver.NoPatternsNothing | src/core/PathResolver.cpp:113-127 | with an empty pattern list nothing is collected |
| QueryEngine.GetPredefinedQuery | src/core/QueryEngine.cpp:152-202 | a pattern exists exactly for the query types the language offers, and it is never empty |
| QueryEngine.CatalogueSplit | src/core/QueryEngine.cpp:154-201 | C++ has no DECORATORS or ASYNC_FUNCTIONS pattern, Python none of the C++-only types, UNKNOWN none at all; every type has a pattern in one of the two languages |
| QueryEngine.CaptureResult | src/core/QueryEngine.cpp:114-135 | one capture's result: its node and capture name, the node's 0-based start row and column, and the text `source[start..end)` exactly when start < size, end <= size and start < end, otherwise empty |
| QueryEngine.MatchResults | src/core/QueryEngine.cpp:113-136 | one result per capture of a match |
| QueryEngine.Execute | src/core/QueryEngine.cpp:92-144 | the results are the captures' results, match by match and capture by capture |
| QueryEngine.FlattenLength | src/core/QueryEngine.cpp:111-137 | the output has exactly as many results as there are captures in all matches |
| QueryEngine.FlattenPosition | src/core/QueryEngine.cpp:111-137 | the i-th capture of the m-th match lands after all captures of earlier matches, at offset i |
| ASTAnalyzer.DetectLanguage | src/core/ASTAnalyzer.cpp:31-44 | the override when given; otherwise the language of the extension, and C++ exactly when the extension is unknown, so never UNKNOWN |
| ASTAnalyzer.Analyzer.constructor | src/core/ASTAnalyzer.hpp:127 | a new analyzer has an empty parse cache and no parsers |
| ASTAnalyzer.Analyzer.CacheSize | src/core/ASTAnalyzer.hpp:127 | cache_size is the number of cached paths |
| ASTAnalyzer.Analyzer.ClearCache | src/core/ASTAnalyzer.cpp:406-409 | the cache is empty afterwards and the parsers are kept |
| ASTAnalyzer.Analyzer.GetParserForLanguage | src/core/ASTAnalyzer.cpp:14-29 | a parser exists for C++ and Python only; it is created on first use and the cache is untouched |
| ASTAnalyzer.Analyzer.GetOrParseFile | src/core/ASTAnalyzer.cpp:411-489 | the handed-out triple and the new cache are those of the cache rule: a valid entry is reused, a stale one erased, a successful parse stored with the file's time |
| ASTAnalyzer.Analyzer.RunFileOp | src/core/ASTAnalyzer.cpp:46-269 | one per-file analysis: the language is detected, the file fetched through the cache, and the result is that of the fetched tree |
| ASTAnalyzer.Analyzer.RunCaught | src/core/ASTAnalyzer.cpp:279-296 | one batch iteration: the per-file result with the path written in, or the caught exception as a failed result; the cache moves as the fetch moves it |
| ASTAnalyzer.Analyzer.BatchStep | src/core/ASTAnalyzer.cpp:278-297 | one more file: its result appended, the failure counter and the cache kept in step with the batch specification |
| ASTAnalyzer.Analyzer.RunBatch | src/core/ASTAnalyzer.cpp:271-302 | one result per input in input order, each computed with the cache the earlier files left; processed = total - failed and success exactly when nothing failed |
| ASTAnalyzer.Caught | src/core/ASTAnalyzer.cpp:283-296 | a batch result succeeds exactly when the call returned a successful result; a thrown call records its message and no language |
| ASTAnalyzer.BatchPath | src/core/ASTAnalyzer.cpp:281-293 | the k-th result of a batch is about the k-th file |
| ASTAnalyzer.CountCaptures | src/core/ASTAnalyzer.cpp:76-113 | the count analyze_file records for one query type: the number of captures, or 0 without a pattern |
| ASTAnalyzer.Analyzer.RunOnFetched | src/core/ASTAnalyzer.cpp:46-117 | the per-file result is the one the fetched tree determines |
| ASTAnalyzer.OpOutcome | src/core/ASTAnalyzer.cpp:46-269 | throws exactly when the fetch threw; a result names the path and language, succeeds exactly when it has no error, reports "Failed to parse file" on a failed fetch; analyze_file on a parsed tree always succeeds |
| ASTAnalyzer.CountFailedBound | src/core/ASTAnalyzer.cpp:298-301 | the failure count is at most the number of results, and zero exactly when every result succeeded |
| ASTAnalyzer.ValidEntryIsHit | src/core/ASTAnalyzer.cpp:431-440 | a valid entry is handed out as it is, for the requested language, and the cache does not change |
| ASTAnalyzer.MissingFileUnchanged | src/core/ASTAnalyzer.cpp:416-419 | a missing file fails and leaves the cache unchanged |
| ASTAnalyzer.SuccessLeavesValidEntry | src/core/ASTAnalyzer.cpp:441-479 | after a success the path has exactly one entry, valid now, holding what was handed out; no other entry changes |
| ASTAnalyzer.FailureAfterEraseLeavesNoEntry | src/core/ASTAnalyzer.cpp:441-470 | if reading or parsing fails after the stale entry was erased, the path has no entry |
| ASTAnalyzer.RepeatIsHit | src/core/ASTAnalyzer.cpp:431-440 | asking again right after a success is a hit that changes nothing |
| ASTAnalyzer.AnalyzeTwice | tests/core/ASTAnalyzer_test.cpp:107-122 | analysing one file twice from an empty cache keeps exactly one entry and gives the same result |
| DependencyGraph.IncludeTarget | src/tools/GetDependencyGraphTool.cpp:229-237 | a system include exactly when the text starts with '<'; a text led by '"' or '<' loses its first and last characters; any other text is kept whole |
| DependencyGraph.IncludeTargetDelimited | src/tools/GetDependencyGraphTool.cpp:229-237 | `<p>` is the system include p and `"p"` the user include p |
| DependencyGraph.PythonModule | src/tools/GetDependencyGraphTool.cpp:264-287 | a module name is non-empty and holds no blank or comma; a text without "import" names none |
| DependencyGraph.PythonModuleAfter | src/tools/GetDependencyGraphTool.cpp:267-276 | the module is read from what follows the first "import": leading blanks dropped, cut at the first blank or comma |
| DependencyGraph.PythonModuleOfImport | src/tools/GetDependencyGraphTool.cpp:264-287 | `import m, ...` and `import m as n` name m |
| DependencyGraph.CollectFileEdges | src/tools/GetDependencyGraphTool.cpp:211-291 | the loop over the query results yields the C++ include edges or the Python import edges, in result order |
| DependencyGraph.CppEdgeOfCapture | src/tools/GetDependencyGraphTool.cpp:227-246 | every include_path capture gives one edge, in capture order, from the file to the capture's include target |
| DependencyGraph.EdgesLeaveFile | src/tools/GetDependencyGraphTool.cpp:239-285 | every edge leaves the file being read; Python edges are never system edges and never name an empty module; an unknown language gives none |
| DependencyGraph.ExtractIncludes | src/tools/GetDependencyGraphTool.cpp:183-292 | an unreadable file has no edges; a readable file throws exactly when its language is unknown; every edge starts at the normalised path |
| DependencyGraph.CollectEdges | src/tools/GetDependencyGraphTool.cpp:106-121 | the edges of every file in order, the failures counted, processed + failed = number of files |
| DependencyGraph.CollectFile | src/tools/GetDependencyGraphTool.cpp:110-120 | one file: its edges appended, or its failure counted |
| DependencyGraph.UnknownReadableFails | src/tools/GetDependencyGraphTool.cpp:113-120 | a readable file of unknown language fails and adds no edge |
| DependencyGraph.Kept | src/tools/GetDependencyGraphTool.cpp:301-305 | only edges of the input are kept, and system edges only when asked for |
| DependencyGraph.AddEdgeTo | src/tools/GetDependencyGraphTool.cpp:307-326 | one loop iteration: missing endpoints become nodes, then the edge is appended to includes and included_by |
| DependencyGraph.BuildGraph | src/tools/GetDependencyGraphTool.cpp:294-330 | the nodes are exactly the endpoints of the kept edges, each node's lists are its kept edges in order, includes and included_by agree, every listed name is a node, and without show_system no node is a system node |
| DependencyGraph.GraphOfSymmetric | src/tools/GetDependencyGraphTool.cpp:325-326 | u lists v among its includes exactly as often as v lists u among its includers, and every listed name is a node |
| DependencyGraph.GraphOfDegrees | src/tools/GetDependencyGraphTool.cpp:301-327 | the includes lists and the included_by lists each hold exactly one entry per kept edge |
| DependencyGraph.TargetsSources | src/tools/GetDependencyGraphTool.cpp:325-326 | each kept edge is listed once at each end |
| DependencyGraph.ReachTrans | src/tools/GetDependencyGraphTool.cpp:378 | reachability along includes links is transitive |
| DependencyGraph.Expand | src/tools/GetDependencyGraphTool.cpp:479-486 | the inner loop queues, one level deeper, exactly the includes not yet visited, once each |
| DependencyGraph.Seed | src/tools/GetDependencyGraphTool.cpp:456-462 | the first loop queues at depth 0 exactly the roots the graph holds |
| DependencyGraph.Visit | src/tools/GetDependencyGraphTool.cpp:464-487 | one round of the main loop keeps the search's invariant, and either visits something new or shortens the queue |
| DependencyGraph.Drain | src/tools/GetDependencyGraphTool.cpp:464-487 | the main loop ends with every visited name finished and the filtered graph holding exactly the visited names the graph has, with their records unchanged |
| DependencyGraph.FilterByDepth | src/tools/GetDependencyGraphTool.cpp:446-490 | an unchanged sub-map of the graph holding exactly the nodes within max_depth includes-hops of the roots present (every reachable node when max_depth < 0) |
| DependencyGraph.FilterExact | src/tools/GetDependencyGraphTool.cpp:473-476 | with a limit, the kept nodes are exactly those within max_depth hops |
| DependencyGraph.FilterExactUnbounded | src/tools/GetDependencyGraphTool.cpp:446-490 | without a limit, the kept nodes are exactly the reachable ones |
| DependencyGraph.Reached | src/tools/GetDependencyGraphTool.cpp:464-487 | once every visited node is finished, every name within k hops (k up to the limit) has been visited at a depth of at most k |
| DependencyLayers.ComputeLayers | src/tools/GetDependencyGraphTool.cpp:405-444 | every layered name is a node, listed once and only in its own layer; the nodes nothing includes are exactly those at layer 0; for a graph built by build_graph each node sits one layer below the deepest of its includers, and in an acyclic graph every node gets a layer |
| DependencyLayers.Kahn | src/tools/GetDependencyGraphTool.cpp:413-441 | the two loops over the nodes in key order establish what ComputeLayers promises |
| DependencyLayers.InitialLayer | src/tools/GetDependencyGraphTool.cpp:416-422 | the first loop sets every counter to the in-degree and queues, at layer 0, exactly the nodes nothing includes |
| DependencyLayers.Drain | src/tools/GetDependencyGraphTool.cpp:425-441 | the queue loop ends with every node taken off the queue layered and listed in its layer, in the order taken |
| DependencyLayers.Step | src/tools/GetDependencyGraphTool.cpp:426-440 | one round lists the front node in its layer and keeps the loop invariant; it either layers a new node or shortens the queue |
| DependencyLayers.Release | src/tools/GetDependencyGraphTool.cpp:432-440 | the inner loop counts down each included name and queues, one layer deeper, exactly the names whose counter reaches zero |
| DependencyLayers.ReleaseOne | src/tools/GetDependencyGraphTool.cpp:433-438 | one include is counted down, and queued when its counter reaches zero |
| DependencyLayers.CountedValue | src/tools/GetDependencyGraphTool.cpp:417-434 | a counter is the node's in-degree less the times it was counted down |
| DependencyLayers.ReleasedCount | src/tools/GetDependencyGraphTool.cpp:433-434 | in a graph whose lists agree, a node is counted down once per entry of its included_by list already taken off the queue |
| DependencyLayers.GroupMembers | src/tools/GetDependencyGraphTool.cpp:429-430 | a node is in a layer's list exactly when it was taken off the queue with that layer |
| DependencyLayers.GroupDistinct | src/tools/GetDependencyGraphTool.cpp:429-430 | a layer's list holds each node once |
| DependencyLayers.Finish | src/tools/GetDependencyGraphTool.cpp:425-443 | when the queue runs empty the layered nodes are exactly those taken off it, and the layering has every property ComputeLayers promises |
| DependencyLayers.LayerAfterIncluders | src/tools/GetDependencyGraphTool.cpp:435-437 | each layered node sits one layer below the deepest of its includers, all of them layered |
| DependencyLayers.Stuck | src/tools/GetDependencyGraphTool.cpp:425-441 | when the queue runs empty, every node left without a layer is included by another node left without one |
| DependencyLayers.AllLayered | src/tools/GetDependencyGraphTool.cpp:405-444 | in an acyclic graph no node is left without a layer |
| DependencyLayers.RepeatCycle | src/tools/GetDependencyGraphTool.cpp:405-444 | a walk longer than the graph has nodes closes a cycle |
| DependencyLayers.WalkLayers | src/tools/GetDependencyGraphTool.cpp:435-437 | along a walk of includes the layers grow by at least one per step |
| DependencyLayers.CycleUnlayered | src/tools/GetDependencyGraphTool.cpp:434-435 | no node on a cycle of includes, nor any node reached from one, gets a layer |
| DependencyCycles.DetectCycles | src/tools/GetDependencyGraphTool.cpp:332-358 | the reported cycles are the components of more than one member; their names reach one another, each holds every name that reaches and is reached from one of its members, no name is in two of them, and every two distinct names that reach each other share a reported cycle |
| DependencyCycles.CyclesMeaning | src/tools/GetDependencyGraphTool.cpp:349-355 | for the components the search finds, the reported ones are exactly the strongly connected components of more than one name |
| DependencyCycles.Reported | src/tools/GetDependencyGraphTool.cpp:349-355 | two distinct names that reach each other lie in one reported cycle |
| DependencyCycles.Maximal | src/tools/GetDependencyGraphTool.cpp:390-402 | a component holds every name that reaches and is reached from one of its names |
| DependencyCycles.FoundNoLater | src/tools/GetDependencyGraphTool.cpp:390-402 | what a name of a component reaches lies in a component found no later |
| DependencyCycles.FlatApart | src/tools/GetDependencyGraphTool.cpp:390-402 | no name lies in two components |
| DependencyCycles.CyclesExact | src/tools/GetDependencyGraphTool.cpp:351-354 | a component is reported exactly when it has more than one member |
| DependencyCycles.CyclesDistinct | src/tools/GetDependencyGraphTool.cpp:349-355 | the reported cycles share no name and hold only names of the components |
| DependencyCycles.Components | src/tools/GetDependencyGraphTool.cpp:336-347 | starting tarjan_scc from every unnumbered node in key order puts every node and every name it includes in exactly one non-empty component; the names of a component reach one another and no link leaves the components found first |
| DependencyCycles.SearchAll | src/tools/GetDependencyGraphTool.cpp:343-347 | the loop over the starting names keeps the search invariant and numbers every start |
| DependencyCycles.StartFrom | src/tools/GetDependencyGraphTool.cpp:344-346 | a name not yet numbered is searched from an empty stack, which the search leaves empty again |
| DependencyCycles.StrongConnect | src/tools/GetDependencyGraphTool.cpp:360-403 | tarjan_scc numbers the node with the counter, keeps earlier entries, and either pops a component ending in the node (lowlink = index) or leaves the node on the stack above what it found (lowlink < index); lowlinks stay witnessed by reachable names on the stack |
| DependencyCycles.Consider | src/tools/GetDependencyGraphTool.cpp:378-387 | one successor: an unnumbered one is searched and the lowlink takes the minimum with its lowlink; one on the stack lowers the lowlink to its index; any other leaves it; the successor is then accounted for |
| DependencyCycles.Close | src/tools/GetDependencyGraphTool.cpp:390-402 | a node whose lowlink is its index pops its component; otherwise it stays on the stack |
| DependencyCycles.PopComponent | src/tools/GetDependencyGraphTool.cpp:392-401 | the do-while loop pops the names down to and including the node, in popping order, and records them as one component |
| DependencyCycles.PushValid | src/tools/GetDependencyGraphTool.cpp:370-374 | numbering a fresh name and pushing it keeps indices unique and below the counter, and the stack ordered by index |
| DependencyCycles.LowerValid | src/tools/GetDependencyGraphTool.cpp:382-385 | lowering a lowlink on the stack keeps the invariant |
| DependencyCycles.PoppedValid | src/tools/GetDependencyGraphTool.cpp:392-401 | popping a component keeps the invariant: every numbered name is on the stack or in exactly one component |
| DependencyCycles.RootReach | src/tools/GetDependencyGraphTool.cpp:391-401 | the names a root pops reach one another |
| DependencyCycles.RootClosed | src/tools/GetDependencyGraphTool.cpp:391-401 | no link leaves the popped component except into a component found before |
| DependencyCycles.NotRootReach | src/tools/GetDependencyGraphTool.cpp:391 | a node that is not a root reaches, through its lowlink, a name left below it on the stack |
| DependencyCycles.OnStackReach | src/tools/GetDependencyGraphTool.cpp:383-385 | a successor on the stack lowers the lowlink to an index of a name the node reaches |
| DependencyCycles.Finished | src/tools/GetDependencyGraphTool.cpp:343-347 | with the stack empty, every numbered name lies in exactly one non-empty component |
| DependencyRender.NatStrRoundTrip | src/tools/GetDependencyGraphTool.cpp:562 | std::to_string of the counter reads back as the counter |
| DependencyRender.NatStrNoLeadingZero | src/tools/GetDependencyGraphTool.cpp:562 | the counter's text is decimal digits with no leading zero unless it is "0" |
| DependencyRender.IdInjective | src/tools/GetDependencyGraphTool.cpp:562 | different counters give different identifiers "N0", "N1", ... |
| DependencyRender.IdsExact | src/tools/GetDependencyGraphTool.cpp:559-570 | exactly the keys get an identifier, the i-th key in key order getting "N" followed by i |
| DependencyRender.IdsInjective | src/tools/GetDependencyGraphTool.cpp:559-570 | distinct keys get distinct identifiers |
| DependencyRender.PairsConsecutive | src/tools/GetDependencyGraphTool.cpp:574-580 | the pairs the loops visit are exactly the (from, to) that are consecutive in some cycle, wrapping from last to first |
| DependencyRender.CycleEdges | src/tools/GetDependencyGraphTool.cpp:573-580 | corrected cycle-edge set: exactly the consecutive pairs of the cycles |
| DependencyRender.CycleKeysExact | src/tools/GetDependencyGraphTool.cpp:573-580 | a key is stored exactly when it is from + "->" + to for some consecutive pair of a cycle |
| DependencyRender.KeysCoverCycles | src/tools/GetDependencyGraphTool.cpp:586-587 | the key test never misses an edge that follows a cycle |
| DependencyRender.KeyCollision | src/tools/GetDependencyGraphTool.cpp:578-586 | joined keys lose where a name ends: with the cycle [x, y->z], the edge (x->y, z) is marked although it is not in the cycle |
| DependencyRender.CycleEdgeKeys | src/tools/GetDependencyGraphTool.cpp:573-580 | the loops insert exactly the joined keys of the consecutive pairs, so every cycle edge's key is present |
| DependencyRender.NodeLinesExact | src/tools/GetDependencyGraphTool.cpp:561-570 | one node line per key, the i-th under identifier N<i> and showing the key's file name |
| DependencyRender.EdgeLinesExact | src/tools/GetDependencyGraphTool.cpp:582-595 | an edge line is drawn exactly for the edges whose two ends are nodes, between their identifiers, marked exactly when the edge's key is a cycle-edge key |
| DependencyRender.ClassLinesExact | src/tools/GetDependencyGraphTool.cpp:598-607 | a class line is written exactly for the cycle members that are nodes |
| DependencyRender.GraphToMermaid | src/tools/GetDependencyGraphTool.cpp:550-610 | the Mermaid text: header, node lines in key order, edge lines with cycle edges marked by key, and the class lines when there are cycles |
| DependencyRender.GraphToDot | src/tools/GetDependencyGraphTool.cpp:612-664 | the DOT text: header, node lines in key order, a blank line, edge lines with cycle edges marked by key, closing brace |
| DependencyRender.WriteNodes | src/tools/GetDependencyGraphTool.cpp:559-570 | the nodes loop writes the node lines and builds node_ids |
| DependencyRender.WriteEdges | src/tools/GetDependencyGraphTool.cpp:582-595 | the edges loop writes the edge lines |
| DependencyRender.WriteClasses | src/tools/GetDependencyGraphTool.cpp:600-606 | the highlighting loops write the class lines |
| DependencyTool.Execute | src/tools/GetDependencyGraphTool.cpp:62-180 | a missing filepath is an error without success field; nothing resolved is an error exactly when no input contributes a file, and any resolved file gives a rendering or report, never an error; the edges are those of the resolved files in path order and the counters add up; the analysed graph is the built graph without a depth limit (every file then after its includers) and exactly the built files within max_depth include steps of the normalised inputs with one; cycles are the strongly connected groups of more than one name, disjoint and maximal, every such group reported when detection is on and none otherwise, so cycles_found counts those groups; mermaid and dot give the Mermaid or DOT text of that graph, edges and cycles, any other format the JSON report of them with layers matching each node's layer |
| DependencyTool.Analyse | src/tools/GetDependencyGraphTool.cpp:126-142 | the graph is the built graph without a depth limit and exactly the built files within max_depth steps of the normalised inputs with one; cycles are the strongly connected groups of more than one name, disjoint and maximal, every such group reported when detection is on, none otherwise; every node in a layer is listed once under the layer it was given, roots at layer 0 and each file after its includers |
| DependencyTool.Present | src/tools/GetDependencyGraphTool.cpp:144-170 | mermaid gives the Mermaid text and dot the DOT text of the graph's keys in order, the edges and the cycles, with their counters; any other format gives the JSON report |
| DependencyTool.Normalized | src/tools/GetDependencyGraphTool.cpp:128-131 | the roots are the normalised resolved paths, in order |
| DependencyTool.SortedIsInOrder | src/core/PathResolver.cpp:146-147 | the sorted result of resolve_paths is the one ordered listing of its paths |
| ClassHierarchy.FirstOfKinds | src/tools/GetClassHierarchyTool.cpp:298-304 | the position found is the first child of one of the wanted kinds; none found means no child has such a kind |
| ClassHierarchy.BasesOfExact | src/tools/GetClassHierarchyTool.cpp:305-330 | a name is listed exactly when some base_class_specifier of the clause names it through its first type child; at most one base per specifier |
| ClassHierarchy.ExtractBaseClasses | src/tools/GetClassHierarchyTool.cpp:292-336 | the bases are those of the first base_class_clause only, in order |
| ClassHierarchy.ClauseBases | src/tools/GetClassHierarchyTool.cpp:307-330 | the loop over a clause's specifiers collects exactly their bases, in order |
| ClassHierarchy.AccessOf | src/tools/GetClassHierarchyTool.cpp:375-386 | an access_specifier containing "public" selects public, else "private" private, else "protected" protected, else the access in force is kept |
| ClassHierarchy.AccessDefaultsPrivate | src/tools/GetClassHierarchyTool.cpp:366 | a class body without access_specifier leaves its members private |
| ClassHierarchy.AccessIsLevel | src/tools/GetClassHierarchyTool.cpp:366-386 | the access in force is always public, private or protected |
| ClassHierarchy.MemberFlags | src/tools/GetClassHierarchyTool.cpp:393-426 | pure exactly with a pure_virtual_clause child; override and final exactly when the member's text contains those words; virtual exactly through a virtual specifier or any of the other three |
| ClassHierarchy.MemberMethod | src/tools/GetClassHierarchyTool.cpp:389-481 | a record is produced only for a virtual member with a function_declarator child and a non-empty name, carrying the access in force, the 1-based line and the member's flags |
| ClassHierarchy.MethodsOfSource | src/tools/GetClassHierarchyTool.cpp:368-482 | every method recorded comes from one member of the class body, under the access in force at that member |
| ClassHierarchy.ExtractVirtualMethods | src/tools/GetClassHierarchyTool.cpp:338-485 | a class without field_declaration_list has no methods; otherwise its methods are those its body's members give, in order |
| ClassHierarchy.BodyMethods | src/tools/GetClassHierarchyTool.cpp:366-482 | the member loop with its current access computes exactly the body's records |
| ClassHierarchy.EnclosingClass | src/tools/GetClassHierarchyTool.cpp:259-269 | the walk up from the class name stops at the nearest class_specifier ancestor, or keeps the name node when there is none |
| ClassHierarchy.FindClassNode | src/tools/GetClassHierarchyTool.cpp:260-269 | the parent loop returns the node EnclosingClass describes |
| ClassHierarchy.ClassOf | src/tools/GetClassHierarchyTool.cpp:254-284 | the record carries the capture's name, line and the file; without show_methods it has no methods and is not abstract; it is abstract exactly when one of its methods is pure virtual |
| ClassHierarchy.AnyPure | src/tools/GetClassHierarchyTool.cpp:280-284 | true exactly when some method is pure virtual |
| ClassHierarchy.ClassesOfKeys | src/tools/GetClassHierarchyTool.cpp:249-287 | a name is a class of the file exactly when some class_name capture has that text |
| ClassHierarchy.ClassesOfLast | src/tools/GetClassHierarchyTool.cpp:286 | the record kept for a name is the one built from the last capture naming it |
| ClassHierarchy.AnalyzeFile | src/tools/GetClassHierarchyTool.cpp:200-290 | an unreadable file or failed parse yields no classes; otherwise the classes are those of the class_name captures |
| ClassHierarchy.AddCapture | src/tools/GetClassHierarchyTool.cpp:249-287 | one turn of the capture loop extends the map to that of one more capture |
| ClassHierarchyTool.AppendNewExact | src/tools/GetClassHierarchyTool.cpp:132-138 | merging base lists keeps the old list as a prefix, adds exactly the new names, and keeps a duplicate-free list duplicate-free |
| ClassHierarchyTool.AppendMissing | src/tools/GetClassHierarchyTool.cpp:132-138 | the std::find loop computes the old bases followed by each new base not yet listed, in order |
| ClassHierarchyTool.MergeOneAsWritten | src/tools/GetClassHierarchyTool.cpp:126-145 | a new name is inserted; a known one gains the new bases (once each) and methods but keeps its line, file and is_abstract; other records are unchanged |
| ClassHierarchyTool.MergeOneJustified | src/tools/GetClassHierarchyTool.cpp:126-145 | the merge as written keeps every record that says abstract listing a pure virtual method |
| ClassHierarchyTool.ForwardDeclarationNotAbstract | src/tools/GetClassHierarchyTool.cpp:126-145 | a forward declaration merged with a definition holding a pure virtual method yields a record that lists the method yet is not abstract |
| ClassHierarchyTool.MergeOne | src/tools/GetClassHierarchyTool.cpp:126-145 | the corrected merge: as written, with is_abstract set when either record is abstract |
| ClassHierarchyTool.MergeOneConsistent | src/tools/GetClassHierarchyTool.cpp:280-284 | the corrected merge keeps every record abstract exactly when one of its methods is pure virtual |
| ClassHierarchyTool.MergeNamesExact | src/tools/GetClassHierarchyTool.cpp:126-145 | merging a file's classes adds exactly their names |
| ClassHierarchyTool.MergeNamesJustified | src/tools/GetClassHierarchyTool.cpp:126-145 | merging a file keeps every abstract record justified by a pure virtual method |
| ClassHierarchyTool.MergeRecord | src/tools/GetClassHierarchyTool.cpp:127-144 | the merge of one record computes MergeOneAsWritten |
| ClassHierarchyTool.MergeInto | src/tools/GetClassHierarchyTool.cpp:126-145 | the loop over a file's classes in name order computes MergeFile |
| ClassHierarchyTool.MergeEach | src/tools/GetClassHierarchyTool.cpp:126-145 | each turn of the loop merges one more class of the file |
| ClassHierarchyTool.MergeFileExact | src/tools/GetClassHierarchyTool.cpp:126-145 | a merged file adds exactly its own class names |
| ClassHierarchyTool.CppFiles | src/tools/GetClassHierarchyTool.cpp:108-114 | at most as many files are analyzed as were resolved |
| ClassHierarchyTool.ClassesConsistent | src/tools/GetClassHierarchyTool.cpp:249-287 | every record one file's analysis builds is abstract exactly when one of its methods is pure virtual |
| ClassHierarchyTool.AnalyzedConsistent | src/tools/GetClassHierarchyTool.cpp:200-290 | every record analyze_file returns is abstract exactly when one of its methods is pure virtual |
| ClassHierarchyTool.MergedExact | src/tools/GetClassHierarchyTool.cpp:108-152 | a class is collected exactly when some resolved C++ file defines it |
| ClassHierarchyTool.MergedStep | src/tools/GetClassHierarchyTool.cpp:108-152 | one more file adds exactly the classes it defines, when it is a C++ file |
| ClassHierarchyTool.MergedJustified | src/tools/GetClassHierarchyTool.cpp:104-152 | every collected record that says abstract lists a pure virtual method |
| ClassHierarchyTool.CollectClasses | src/tools/GetClassHierarchyTool.cpp:104-152 | the file loop computes the merge of every C++ file's classes and counts the C++ files as processed |
| ClassHierarchyTool.CollectOne | src/tools/GetClassHierarchyTool.cpp:108-152 | one turn of the file loop analyzes and merges the file if it is a C++ file |
| ClassHierarchyTool.WithBasesExact | src/tools/GetClassHierarchyTool.cpp:529-535 | adding a class under its bases makes each base a key and adds the class to exactly those bases' children |
| ClassHierarchyTool.TreeOfExact | src/tools/GetClassHierarchyTool.cpp:520-538 | the keys are the classes and their bases, and a class is a child of a name exactly when it lists that name as a base |
| ClassHierarchyTool.AddClass | src/tools/GetClassHierarchyTool.cpp:523-535 | one class's step makes it a key and adds it under each of its bases |
| ClassHierarchyTool.BuildHierarchyTree | src/tools/GetClassHierarchyTool.cpp:516-539 | the keys are exactly the classes and their bases; the children of a key are exactly the classes naming it as a base |
| ClassHierarchyTool.TreeLoop | src/tools/GetClassHierarchyTool.cpp:523-536 | the loop over the classes computes the tree |
| ClassHierarchyTool.TreeMeaning | src/tools/GetClassHierarchyTool.cpp:516-539 | over all classes, the tree's keys and children are as BuildHierarchyTree states |
| ClassHierarchyTool.Links | src/tools/GetClassHierarchyTool.cpp:572-589 | the neighbours of a name are its children in name order, then its bases |
| ClassHierarchyTool.FilterHierarchy | src/tools/GetClassHierarchyTool.cpp:541-593 | the result keeps the classes reached from the root through children and bases within max_depth steps (any number when negative), unchanged; the root is kept when it is a class; depth 0 keeps only the root |
| ClassHierarchyTool.EntryOfMeaning | src/tools/GetClassHierarchyTool.cpp:631-654 | an entry lists the key's children in name order, its parents are the class's bases (none for a base that is not a class), and it is abstract only for an abstract class |
| ClassHierarchyTool.BuildEntry | src/tools/GetClassHierarchyTool.cpp:632-652 | the entry built for a key is EntryOf for it |
| ClassHierarchyTool.HierarchyToJson | src/tools/GetClassHierarchyTool.cpp:625-658 | one entry per key of the tree, in name order |
| ClassHierarchyTool.Execute | src/tools/GetClassHierarchyTool.cpp:60-198 | a missing filepath and an empty resolution are errors; otherwise the classes are the merge of the C++ files, an unknown class_name is "Class not found", a known one keeps exactly the classes within max_depth steps of it through bases and derived classes (all connected ones without a limit), and the hierarchy entries are those of the tree of the reported classes in name order |
| ClassHierarchyTool.Summarize | src/tools/GetClassHierarchyTool.cpp:154-188 | after the merge: an unknown requested class fails; otherwise the report holds all classes, or exactly those within max_depth steps of the requested one in the whole tree, their counts, and the entries of the tree of the reported classes in name order |
| FileSummary.CalculateMetrics | src/tools/GetFileSummaryTool.cpp:759-805 | the counters are those of the line scan over the getline lines, each trimmed of leading blanks and trailing blanks and line ends |
| FileSummary.CountLine | src/tools/GetFileSummaryTool.cpp:779-796 | one line's step adds it to the counter its classification names and updates the open-block flag accordingly |
| FileSummary.ScanNext | src/tools/GetFileSummaryTool.cpp:771-797 | the scan of one more line classifies it in the block state left by the lines before |
| FileSummary.MetricsPartition | src/tools/GetFileSummaryTool.cpp:771-797 | loc is the number of lines and every line is counted as exactly one of code, comment or blank |
| FileSummary.BlankLinesIgnoreBlocks | src/tools/GetFileSummaryTool.cpp:775-781 | a line empty after trimming is blank even inside a block comment, so blank_lines is the number of such lines |
| FileSummary.MetricsWithoutBlocks | src/tools/GetFileSummaryTool.cpp:786-796 | without a line opening "/*", no block is open, the comment lines are those starting "//" or '#', and all other non-blank lines are code |
| FileSummary.BlockCommentLines | src/tools/GetFileSummaryTool.cpp:781-791 | once a block comment is open, lines without "*/" keep it open and add no code lines |
| FileSummary.CalculateComplexity | src/tools/GetFileSummaryTool.cpp:347-391 | the cursor walk over the subtree computes Complexity |
| FileSummary.BranchesAppend | src/tools/GetFileSummaryTool.cpp:358-369 | decision points of two walks add up |
| FileSummary.WalkBranches | src/tools/GetFileSummaryTool.cpp:351-387 | the pre-order walk counts each decision-point node of the subtree exactly once |
| FileSummary.WalkSeqBranches | src/tools/GetFileSummaryTool.cpp:351-387 | the walk over a list of siblings counts each of their decision points exactly once |
| FileSummary.ComplexityOfTree | src/tools/GetFileSummaryTool.cpp:347-391 | complexity is 1 plus the number of subtree nodes of a branching kind, so it is at least 1 and at most 1 plus the subtree's size |
| FileSummary.TreeBranchesBound | src/tools/GetFileSummaryTool.cpp:359-368 | a subtree has no more decision points than nodes |
| FileSummary.TreeBranchesSeqBound | src/tools/GetFileSummaryTool.cpp:359-368 | a list of subtrees has no more decision points than nodes |
| FileSummary.IncludeImport | src/tools/GetFileSummaryTool.cpp:624-643 | an include is system exactly when its text starts with '<'; a text of two or more characters loses two, and the line is kept |
| FileSummary.IncludeImportRoundTrip | src/tools/GetFileSummaryTool.cpp:636-641 | the path is the text without its first and last characters when it has two or more, else the whole text |
| FileSummary.IncludeDelimited | src/tools/GetFileSummaryTool.cpp:636-641 | "<p>" gives system path p and "\"p\"" gives local path p, agreeing with the dependency graph's include_target on delimited texts |
| FileSummary.ExtractImports | src/tools/GetFileSummaryTool.cpp:608-701 | the imports are those of the pre-order walk's preproc_include nodes with a path (C++) or import statements (Python), in walk order |
| FileSummary.NoImportsElsewhere | src/tools/GetFileSummaryTool.cpp:615-698 | a file of unknown language has no imports |
| FileSummary.ImportsFromNodes | src/tools/GetFileSummaryTool.cpp:624-682 | at most one import per visited node, each on a 1-based line; Python imports are local and name the statement text as module; C++ includes have no module |
| FileSummary.PythonDocstringRoundTrip | src/tools/GetFileSummaryTool.cpp:722-726 | stripping undoes the triple quotes of either kind |
| FileSummary.LineCommentRoundTrip | src/tools/GetFileSummaryTool.cpp:741-750 | a line comment is stripped of "//" and then trimmed |
| FileSummary.BlockCommentRoundTrip | src/tools/GetFileSummaryTool.cpp:741-750 | a block comment is stripped of "/*" and "*/" and then trimmed |
| FileSummary.CppCommentTrimmed | src/tools/GetFileSummaryTool.cpp:748-750 | a stripped comment starts with no space or tab and ends with no space, tab or line end |
| CommentMarkers.DetectMarker | src/tools/GetFileSummaryTool.cpp:820-835 | a text whose upper-cased form is a marker's name detects as that marker; any other text detects as TODO |
| CommentMarkers.UpperFixed | src/tools/GetFileSummaryTool.cpp:821-824 | upper-casing leaves text without lower-case letters unchanged |
| CommentMarkers.UpperOfLower | src/tools/GetFileSummaryTool.cpp:821-824 | upper-casing ignores the case of its input |
| CommentMarkers.MarkerRoundTrip | src/tools/GetFileSummaryTool.cpp:807-835 | detect_marker_type undoes marker_to_string for all seven markers, so their names are distinct |
| CommentMarkers.MarkerCaseInsensitive | src/tools/GetFileSummaryTool.cpp:820-835 | detection gives the same marker for a text and its lower-cased form |
| CommentMarkers.SepRun | src/tools/GetFileSummaryTool.cpp:580 | the separator run from a position stays inside the line |
| CommentMarkers.SepRunMaximal | src/tools/GetFileSummaryTool.cpp:580 | the run of [:\s] characters is maximal: all separators, and the next character is not one |
| CommentMarkers.DotRun | src/tools/GetFileSummaryTool.cpp:580 | the run of non-line-terminator characters stays inside the line |
| CommentMarkers.DotRunMaximal | src/tools/GetFileSummaryTool.cpp:580 | the greedy (.+) run is maximal |
| CommentMarkers.GroupStart | src/tools/GetFileSummaryTool.cpp:580 | the captured text starts after at least one separator, within the run, at a character '.' accepts |
| CommentMarkers.GroupStartLast | src/tools/GetFileSummaryTool.cpp:580 | the greedy separators give back as little as possible: no later admissible start exists, and none at all when there is no start |
| CommentMarkers.WordAtSlice | src/tools/GetFileSummaryTool.cpp:580-581 | a marker word found at a position is the slice of the line there, ignoring case |
| CommentMarkers.MatchWith | src/tools/GetFileSummaryTool.cpp:580-581 | a match of one alternative starts at the given position and names that marker word, in any case |
| CommentMarkers.MatchWithMeaning | src/tools/GetFileSummaryTool.cpp:580 | an alternative matches exactly when its word is followed by a separator and then a character '.' accepts; the captured text is nonempty and free of line terminators |
| CommentMarkers.MatchFrom | src/tools/GetFileSummaryTool.cpp:580 | the first alternative, in pattern order, that matches at a position |
| CommentMarkers.MatchAt | src/tools/GetFileSummaryTool.cpp:580 | a match of the pattern at a position names a marker word there |
| CommentMarkers.Leftmost | src/tools/GetFileSummaryTool.cpp:589 | a result is the match at some position of the line |
| CommentMarkers.LeftmostFirst | src/tools/GetFileSummaryTool.cpp:589 | regex_search finds the first position where the pattern matches, and finds one whenever one exists |
| CommentMarkers.SearchLeftmost | src/tools/GetFileSummaryTool.cpp:589 | no match starts before the one found, and a line with a match always yields one |
| CommentMarkers.ExtractCommentMarkers | src/tools/GetFileSummaryTool.cpp:573-606 | the markers are those the per-line search finds in the getline lines, numbered from 1 |
| CommentMarkers.MarkersOrdered | src/tools/GetFileSummaryTool.cpp:585-603 | markers come in strictly increasing line order, so at most one per line, and each names its own line as context |
| CommentMarkers.LineMarkerPlaced | src/tools/GetFileSummaryTool.cpp:590-600 | the marker of a line carries that line's number and the line as context |
| CommentMarkers.CollectOrdered | src/tools/GetFileSummaryTool.cpp:587-603 | collecting per-line markers gives increasing line numbers, lines of the file and well-formed markers |
| CommentMarkers.OnLongerLines | src/tools/GetFileSummaryTool.cpp:587-603 | markers placed on lines read so far stay placed as more lines are read |
| CommentMarkers.MarkersWellFormed | src/tools/GetFileSummaryTool.cpp:589-600 | every marker's word occurs in its context line and names its type, and its text is trimmed |
| CommentMarkers.LineMarkerWellFormed | src/tools/GetFileSummaryTool.cpp:589-600 | a line's marker is on that line, its word occurs in the line, and its text starts with no blank and ends with no blank or line end |
| SymbolContext.GetNodeText | src/tools/GetSymbolContextTool.cpp:667-674 | the text is the node's bytes exactly when its range is nonempty and inside the source, and empty otherwise |
| SymbolContext.GetLineNumber | src/tools/GetSymbolContextTool.cpp:676-682 | the loop gives 1 plus the number of newlines in the first min(offset, size) bytes |
| SymbolContext.LineNumberIsGetlineLine | src/tools/GetSymbolContextTool.cpp:676-682 | that number is the getline line the offset falls on |
| SymbolContext.LineNumberMonotone | src/tools/GetSymbolContextTool.cpp:676-682 | later offsets never get smaller line numbers, and none exceeds the newlines of the whole source |
| SymbolContext.SplitQualified | src/tools/GetSymbolContextTool.cpp:250-258 | a name is qualified exactly when it contains "::"; an unqualified one has empty class and member parts |
| SymbolContext.QualifiedRoundTrip | src/tools/GetSymbolContextTool.cpp:250-258 | a qualified name is its class part, "::" and its member part, the class part holding no "::" (the split is at the first one) |
| SymbolContext.ParentClass | src/tools/GetSymbolContextTool.cpp:390-396 | only a method has a parent class |
| SymbolContext.ParentClassIsClassPart | src/tools/GetSymbolContextTool.cpp:390-396 | a method's parent class is the class part locate_symbol split off |
| SymbolContext.CutAtParen | src/tools/GetSymbolContextTool.cpp:271-275 | the text up to, not including, the first '(' (all of it when there is none) |
| SymbolContext.FirstMember | src/tools/GetSymbolContextTool.cpp:304-329 | the first class-body member whose declarator contains the member name, or none when no member does |
| SymbolContext.Hit | src/tools/GetSymbolContextTool.cpp:265-347 | a function definition is a hit exactly when its declarator, cut at '(', contains the symbol; other nodes that are neither functions nor classes are never hits |
| SymbolContext.FirstHitFirst | src/tools/GetSymbolContextTool.cpp:349-356 | the first hit is that of the earliest node having one, and there is none exactly when no node has one |
| SymbolContext.FirstHitAppend | src/tools/GetSymbolContextTool.cpp:349-356 | the first hit of two walks is that of the first walk when it has one |
| SymbolContext.SearchIsPreorderFirst | src/tools/GetSymbolContextTool.cpp:262-357 | the recursive search returns the first hit of the pre-order walk |
| SymbolContext.SearchSeqIsPreorderFirst | src/tools/GetSymbolContextTool.cpp:349-356 | the search over children returns the first hit of their pre-order walks |
| SymbolContext.LocateSymbol | src/tools/GetSymbolContextTool.cpp:224-360 | an unreadable file locates nothing |
| SymbolContext.ExtractSignature | src/tools/GetSymbolContextTool.cpp:401-448 | a function gives its function signature, a class or struct its class signature, any other node its whole text |
| SymbolContext.FunctionSignatureShape | src/tools/GetSymbolContextTool.cpp:405-422 | a function signature is the return type and a space (when present), then the declarator text, then ';' |
| SymbolContext.ClassSignatureShape | src/tools/GetSymbolContextTool.cpp:424-444 | a class signature is "class" or "struct", a space and the name, then a space and the first base clause when there is one, then ';' |
| SymbolContext.ExtractDefinition | src/tools/GetSymbolContextTool.cpp:366-399 | the definition keeps the location's name, kind and lines, its code is exactly the located bytes, without a node there is no signature, and a qualified method's parent class is its class part |
| SymbolContext.Candidate | src/tools/GetSymbolContextTool.cpp:477-514 | only type identifiers, call expressions and qualified identifiers name used symbols, of kind "type", "function" or "qualified" |
| SymbolContext.Candidates | src/tools/GetSymbolContextTool.cpp:473-521 | at most one candidate per visited node |
| SymbolContext.Names | src/tools/GetSymbolContextTool.cpp:462 | every candidate's name is among the names |
| SymbolContext.FirstNamed | src/tools/GetSymbolContextTool.cpp:462 | the first position of a name, or the length when the name does not occur |
| SymbolContext.DedupNext | src/tools/GetSymbolContextTool.cpp:480-513 | one more candidate is kept exactly when its name has not been seen |
| SymbolContext.DedupNames | src/tools/GetSymbolContextTool.cpp:461-523 | the kept list has the names of all candidates |
| SymbolContext.DedupDistinct | src/tools/GetSymbolContextTool.cpp:461-523 | no name is kept twice, across all categories |
| SymbolContext.FirstNamedNext | src/tools/GetSymbolContextTool.cpp:462 | a name already seen keeps its first position |
| SymbolContext.DedupFirst | src/tools/GetSymbolContextTool.cpp:461-523 | each kept entry is the first candidate with its name, so the first occurrence fixes the category |
| SymbolContext.DedupOrdered | src/tools/GetSymbolContextTool.cpp:461-523 | kept entries come in the order of their names' first occurrences |
| SymbolContext.OrderedPair | src/tools/GetSymbolContextTool.cpp:461-523 | two entries kept before a new candidate keep their order |
| SymbolContext.OrderedLast | src/tools/GetSymbolContextTool.cpp:461-523 | a newly kept candidate comes after every earlier entry |
| SymbolContext.FirstNamedNew | src/tools/GetSymbolContextTool.cpp:480-486 | a new name is first found where it is added |
| SymbolContext.CandidatesNext | src/tools/GetSymbolContextTool.cpp:473-521 | one more visited node adds its candidate, if any |
| SymbolContext.UsedNext | src/tools/GetSymbolContextTool.cpp:473-521 | one more visited node's candidate is kept exactly when its name is new |
| SymbolContext.AnalyzeDependencies | src/tools/GetSymbolContextTool.cpp:454-527 | without a node nothing is used; otherwise the used symbols are the walk's candidates with repeated names dropped |
| SymbolContext.WindowLines | src/tools/GetSymbolContextTool.cpp:756-770 | the window holds, in order, the existing lines numbered max(1, c-k) through c+k, so at most 2k+1 lines |
| SymbolContext.WindowStep | src/tools/GetSymbolContextTool.cpp:762-769 | the window over one more line adds it exactly when its number is in range |
| SymbolContext.WindowDone | src/tools/GetSymbolContextTool.cpp:766-768 | past the window's last line the rest of the file adds nothing |
| SymbolContext.ReadContextLines | src/tools/GetSymbolContextTool.cpp:743-774 | an unreadable file gives no lines; otherwise the window of its getline lines |
| SymbolContext.Take | src/tools/GetSymbolContextTool.cpp:171-174 | the first min(limit, size) elements, none for a limit of zero or less |
| SymbolContext.TakeFull | src/tools/GetSymbolContextTool.cpp:807 | once the first part fills the cap, what follows is cut off |
| SymbolContext.LimitDependencies | src/tools/GetSymbolContextTool.cpp:170-191 | the output dependencies are the first min(max_dependencies, found) |
| SymbolContext.Resolve | src/tools/GetSymbolContextTool.cpp:550-566 | at most one dependency per used symbol |
| SymbolContext.ResolveCounts | src/tools/GetSymbolContextTool.cpp:550-566 | only types are resolved, every type found locally gives one dependency, and without external resolution only local lookups count |
| SymbolContext.FindParentScope | src/tools/GetSymbolContextTool.cpp:850-867 | the walk up a usage's parents computes ParentScope, the nearest function definition's declarator cut at '(' |
| SymbolContext.UsagesIn | src/tools/GetSymbolContextTool.cpp:829-881 | at most one example per visited node |
| SymbolContext.UsagesInAppend | src/tools/GetSymbolContextTool.cpp:829-881 | the examples of two walks are those of the first then those of the second |
| SymbolContext.ConcatAppend | src/tools/GetSymbolContextTool.cpp:806-884 | the examples of two file lists are those of the first then those of the second |
| SymbolContext.UsagesNext | src/tools/GetSymbolContextTool.cpp:829-881 | one more visited node adds its example when it is a usage |
| SymbolContext.WalkStopped | src/tools/GetSymbolContextTool.cpp:830-880 | a walk that ends, or stops with the cap reached, has found the capped examples of the whole walk |
| SymbolContext.TakeStopped | src/tools/GetSymbolContextTool.cpp:830-880 | a reached cap, or an ended sequence, leaves the rest out |
| SymbolContext.ExampleAt | src/tools/GetSymbolContextTool.cpp:835-872 | a visited node gives its example exactly when it is a call whose function text contains the symbol |
| SymbolContext.TakeGrows | src/tools/GetSymbolContextTool.cpp:869-870 | below the cap, one more found example is kept |
| SymbolContext.ExamplesInFile | src/tools/GetSymbolContextTool.cpp:828-883 | the traversal of one file keeps the first examples of its pre-order walk up to the cap |
| SymbolContext.ExamplesOfFile | src/tools/GetSymbolContextTool.cpp:809-883 | one file adds its examples up to the cap, none when it cannot be read, has an unknown language or fails to parse |
| SymbolContext.ConcatNext | src/tools/GetSymbolContextTool.cpp:806-884 | the examples of one more file follow those of the files before |
| SymbolContext.FilesStopped | src/tools/GetSymbolContextTool.cpp:807 | a file loop that ends, or stops with the cap reached, has the capped examples of all files |
| SymbolContext.TakeRest | src/tools/GetSymbolContextTool.cpp:807 | once the cap is reached, the rest is cut off |
| SymbolContext.FindUsageExamples | src/tools/GetSymbolContextTool.cpp:780-888 | the examples are the first max_examples of the files' usages, in file and walk order, never more than max_examples |
| FindReferences.NodeMatches | src/tools/FindReferencesTool.cpp:230-244 | a node matches exactly when its range lies inside the source and its text equals the symbol, so the symbol occurs at its start |
| FindReferences.KindName | src/tools/FindReferencesTool.cpp:393-403 | every kind has a nonempty name that reads back as that kind |
| FindReferences.KindNamesDistinct | src/tools/FindReferencesTool.cpp:393-403 | reference_type_to_string is injective over the six kinds |
| FindReferences.Classify | src/tools/FindReferencesTool.cpp:246-295 | the rules in order: no parent is unknown; the callee of a call is a call; a declarator parent a declaration; a function or class grandparent a definition; a member parent member access; a type parent type usage; each kind exactly when the earlier rules fail and its own holds |
| FindReferences.LineEnd | src/tools/FindReferencesTool.cpp:316-319 | the end of a line is within the source and, before the end of the source, a '\n' |
| FindReferences.LineEndClear | src/tools/FindReferencesTool.cpp:316-319 | no '\n' lies between a line start and its end |
| FindReferences.LineEndAt | src/tools/FindReferencesTool.cpp:316-319 | a line ends at the first '\n' from its start, or at the end of the source |
| FindReferences.LineFromClear | src/tools/FindReferencesTool.cpp:305-321 | the line extract_context lands on holds no '\n' |
| FindReferences.ContextLine | src/tools/FindReferencesTool.cpp:297-328 | the context holds no '\n' and starts and ends with no space or tab |
| FindReferences.LineEndShift | src/tools/FindReferencesTool.cpp:316-319 | line ends do not depend on the text before the scan start |
| FindReferences.LineFromShift | src/tools/FindReferencesTool.cpp:305-321 | the line found does not depend on the text before the scan start |
| FindReferences.ShiftedLastLine | src/tools/FindReferencesTool.cpp:305-321 | on the last line, dropping the text before the scan start does not change the line found |
| FindReferences.ShiftedNextLine | src/tools/FindReferencesTool.cpp:305-321 | past a '\n' the scan goes on one row lower, with or without the text before it |
| FindReferences.LastLine | src/tools/FindReferencesTool.cpp:305-321 | in a text without '\n' the scan lands on the getline line |
| FindReferences.FirstLine | src/tools/FindReferencesTool.cpp:305-321 | row 0 ends where the first '\n' is |
| FindReferences.NextLine | src/tools/FindReferencesTool.cpp:305-321 | past the first '\n', the scan for later rows goes on in the rest of the text |
| FindReferences.ScanPastNewline | src/tools/FindReferencesTool.cpp:308-313 | row r of the text is row r-1 of the text after its first '\n' |
| FindReferences.LinesPastNewline | src/tools/FindReferencesTool.cpp:308-313 | getline's line r is its line r-1 of the text after the first '\n' |
| FindReferences.LineAtIsLine | src/tools/FindReferencesTool.cpp:297-321 | for every row getline yields, the scan lands on that getline line |
| FindReferences.PastNewline | src/tools/FindReferencesTool.cpp:308-313 | past the '\n' that ends the current line, the scan goes on one row lower |
| FindReferences.FindLineStart | src/tools/FindReferencesTool.cpp:306-313 | the first loop stops at the start of the requested row, or at the last line start when the source has fewer rows |
| FindReferences.StepLine | src/tools/FindReferencesTool.cpp:309-312 | one step of the first loop keeps the requested line reachable from the current line start |
| FindReferences.FindLineEnd | src/tools/FindReferencesTool.cpp:316-319 | the second loop runs to the line's end |
| FindReferences.ExtractContext | src/tools/FindReferencesTool.cpp:297-328 | extract_context returns the trimmed line of the node's row |
| FindReferences.FirstIdentifier | src/tools/FindReferencesTool.cpp:356-365 | the position of the first identifier or field_identifier child, or none when there is none |
| FindReferences.FindIdentifierChild | src/tools/FindReferencesTool.cpp:356-365 | the loop over the name node's children finds FirstIdentifier |
| FindReferences.FirstIdentifierIs | src/tools/FindReferencesTool.cpp:356-365 | an identifier child with none before it is the one found |
| FindReferences.FirstIdentifierNone | src/tools/FindReferencesTool.cpp:356-365 | without identifier children none is found |
| FindReferences.NearestIs | src/tools/FindReferencesTool.cpp:336-390 | the walk gives the name of the nearest ancestor that names a scope, and "" when none does |
| FindReferences.ParentScopeNearest | src/tools/FindReferencesTool.cpp:336-390 | with the intended function rule, the scope is the name of the nearest naming ancestor, "" when none |
| FindReferences.ParentScopeAsWrittenNearest | src/tools/FindReferencesTool.cpp:336-390 | as written, the scope is the name of the nearest ancestor the written rules name, "" when none |
| FindReferences.FunctionScopeNamed | src/tools/FindReferencesTool.cpp:346-367 | with the intended rule, a function whose declarator names it by an identifier gives its name as the scope |
| FindReferences.FunctionScopeSkipped | src/tools/FindReferencesTool.cpp:346-367 | as written, such a function is passed over and the scope is looked for further out |
| FindReferences.ExampleNoScopeAsWritten | src/tools/FindReferencesTool.cpp:346-387 | in "void foo() { bar(); }" no ancestor of bar names a scope under the written rules |
| FindReferences.ExampleScopes | src/tools/FindReferencesTool.cpp:346-387 | in that example, the intended rule names "foo" at the function and nothing elsewhere |
| FindReferences.FreeFunctionScopeLost | src/tools/FindReferencesTool.cpp:346-367 | for bar in "void foo() { bar(); }" the source reports the scope "" where "foo" is intended |
| FindReferences.FindParentScope | src/tools/FindReferencesTool.cpp:330-391 | the parent walk computes the scope as the source writes it |
| FindReferences.RefAt | src/tools/FindReferencesTool.cpp:193-209 | a reference is made only by an identifier, type_identifier or field_identifier matching the symbol, in the searched file, at a 1-based line and column, with its node kind and a one-line context |
| FindReferences.Collect | src/tools/FindReferencesTool.cpp:188-223 | at most one reference per visited node |
| FindReferences.CollectNext | src/tools/FindReferencesTool.cpp:188-223 | one more visited node adds its reference, if any |
| FindReferences.CollectExact | src/tools/FindReferencesTool.cpp:188-223 | a reference is collected exactly when some visited node makes it |
| FindReferences.RefsExact | src/tools/FindReferencesTool.cpp:188-223 | a reference is found exactly for each visited node that makes it |
| FindReferences.RefsWellFormed | src/tools/FindReferencesTool.cpp:193-209 | every reference is in the searched file, at a 1-based position, of an identifier kind, with a one-line context |
| FindReferences.QuickFilterSound | src/tools/FindReferencesTool.cpp:169-173 | a source that does not contain the symbol has no references, so the quick text search loses none |
| FindReferences.FileRefsUnfiltered | src/tools/FindReferencesTool.cpp:151-228 | for a readable file that parses, the references are those of the whole walk, with or without the quick search |
| FindReferences.WalkRefs | src/tools/FindReferencesTool.cpp:184-223 | the cursor walk collects the references of the pre-order walk |
| FindReferences.FindInFile | src/tools/FindReferencesTool.cpp:151-228 | find_in_file computes FileRefs: nothing for an unreadable, symbol-free or unparsable file |
| FindReferences.UnknownFiles | src/tools/FindReferencesTool.cpp:115-121 | at most as many files fail as were searched |
| FindReferences.SearchFiles | src/tools/FindReferencesTool.cpp:110-131 | the references are those of every file in order; failed counts the files of unknown language; processed plus failed is the number of files |
| FindReferences.Execute | src/tools/FindReferencesTool.cpp:65-149 | a missing symbol and a filepath neither string nor array are errors; no files found is an error exactly when the resolution is empty, and a non-empty resolution always gives the report; the report holds the references of the searched files, total_references is their number and processed plus failed is files_searched |
| ExtractInterface.Resolve | src/tools/ExtractInterfaceTool.cpp:248-265 | the site found for a capture holds the node the capture's path leads to, among its siblings; no site exactly when the path leads nowhere |
| ExtractInterface.ParentSite | src/tools/ExtractInterfaceTool.cpp:265 | the root has no parent; any other node's parent is the node one step up its path |
| ExtractInterface.FirstIn | src/tools/ExtractInterfaceTool.cpp:460-509 | the position of the first child of one of the given kinds, or none when no child has such a kind |
| ExtractInterface.CppSignatureAgree | src/tools/ExtractInterfaceTool.cpp:460-478 | children after the first compound_statement do not affect the C++ signature |
| ExtractInterface.CppSignatureEnds | src/tools/ExtractInterfaceTool.cpp:465-468 | a C++ signature with a body ends with ";" |
| ExtractInterface.CppBodyDropped | src/tools/ExtractInterfaceTool.cpp:455-480 | at the first compound_statement ";" is appended and everything after it is dropped |
| ExtractInterface.PySignatureAgree | src/tools/ExtractInterfaceTool.cpp:487-510 | children after the first block or ":" do not affect the Python signature |
| ExtractInterface.PySignatureEnds | src/tools/ExtractInterfaceTool.cpp:505-509 | a Python signature with a block or ":" ends with ":" |
| ExtractInterface.PyBodyDropped | src/tools/ExtractInterfaceTool.cpp:482-513 | at the first block or ":" a ":" is appended and everything after it is dropped |
| ExtractInterface.PySignatureSkips | src/tools/ExtractInterfaceTool.cpp:491-503 | children other than def, async, identifier, parameters and type contribute nothing |
| ExtractInterface.PySignatureOnlyKept | src/tools/ExtractInterfaceTool.cpp:491-503 | a definition with none of the kept kinds gives "" or ":" |
| ExtractInterface.CppSignature | src/tools/ExtractInterfaceTool.cpp:455-480 | the C++ loop gives each child's text, followed by a space unless it is the last or "(", up to the body |
| ExtractInterface.PySignature | src/tools/ExtractInterfaceTool.cpp:482-513 | the Python loop gives the kept children's texts, a space after each but the parameters, then ":" at the body |
| ExtractInterface.GetSignatureText | src/tools/ExtractInterfaceTool.cpp:450-519 | C++ and Python signatures by their loops, the whole node text for any other language |
| ExtractInterface.PrecedingComment | src/tools/ExtractInterfaceTool.cpp:521-543 | a nonempty comment is the text of the previous sibling when that is a comment |
| ExtractInterface.RunStart | src/tools/ExtractInterfaceTool.cpp:791-817 | the run of decorators and comments before a node starts at or before it |
| ExtractInterface.RunStartIsRun | src/tools/ExtractInterfaceTool.cpp:797-813 | every sibling in the run is a decorator or a comment, and the sibling before it is neither |
| ExtractInterface.DecoratorsAreRun | src/tools/ExtractInterfaceTool.cpp:791-817 | the decorators are exactly the decorator texts of that run, in source order |
| ExtractInterface.ExtractDecorators | src/tools/ExtractInterfaceTool.cpp:791-817 | the backward loop that prepends decorators computes the decorators of the run |
| ExtractInterface.AccessAsWritten | src/tools/ExtractInterfaceTool.cpp:759-789 | the walk as written gives public, private or protected |
| ExtractInterface.Access | src/tools/ExtractInterfaceTool.cpp:759-789 | the intended access is public, private or protected |
| ExtractInterface.AccessNearest | src/tools/ExtractInterfaceTool.cpp:759-789 | the intended access is the label of the nearest earlier access specifier, or public when there is none |
| ExtractInterface.AccessAgrees | src/tools/ExtractInterfaceTool.cpp:759-789 | the walk as written agrees with the intended access whenever every earlier member is followed by a specifier before the node |
| ExtractInterface.SecondPrivateMemberPublic | src/tools/ExtractInterfaceTool.cpp:759-789 | in "class A { private: int a; int b; };" the walk as written gives int a private and int b public, where private is intended |
| ExtractInterface.GetAccessSpecifier | src/tools/ExtractInterfaceTool.cpp:759-789 | the backward loop computes the access as written |
| ExtractInterface.CommentOf | src/tools/ExtractInterfaceTool.cpp:310-315 | a comment is reported only when comments are wanted and the preceding comment is nonempty |
| ExtractInterface.FunctionEntry | src/tools/ExtractInterfaceTool.cpp:295-326 | the entry's line is the 1-based start row and its column the 0-based start column; decorators only for Python; no access key |
| ExtractInterface.ExtractFunctionSignature | src/tools/ExtractInterfaceTool.cpp:295-326 | extract_function_signature computes FunctionEntry |
| ExtractInterface.TrimDeclaration | src/tools/ExtractInterfaceTool.cpp:419-422 | the declaration loses exactly its trailing run of ';' and whitespace, and is otherwise a prefix of the text |
| ExtractInterface.MethodSlots | src/tools/ExtractInterfaceTool.cpp:395-412 | one slot per body child |
| ExtractInterface.FieldSlots | src/tools/ExtractInterfaceTool.cpp:395-435 | one slot per body child |
| ExtractInterface.ListedMethods | src/tools/ExtractInterfaceTool.cpp:395-412 | at most one method per body child |
| ExtractInterface.ListedFields | src/tools/ExtractInterfaceTool.cpp:413-435 | at most one field per body child |
| ExtractInterface.PublicMethods | src/tools/ExtractInterfaceTool.cpp:401-403 | the filter keeps no more entries than it is given |
| ExtractInterface.PublicFields | src/tools/ExtractInterfaceTool.cpp:401-403 | the filter keeps no more entries than it is given |
| ExtractInterface.PublicMethodsExact | src/tools/ExtractInterfaceTool.cpp:401-403 | the filter keeps exactly the methods whose access is not private |
| ExtractInterface.PublicFieldsExact | src/tools/ExtractInterfaceTool.cpp:401-403 | the filter keeps exactly the fields whose access is not private |
| ExtractInterface.PrivateMethodsFiltered | src/tools/ExtractInterfaceTool.cpp:395-412 | without include_private the methods are those listed with it, minus the private ones, in body order |
| ExtractInterface.PublicMethodsSnoc | src/tools/ExtractInterfaceTool.cpp:401-403 | filtering distributes over appending one entry |
| ExtractInterface.PrivateFieldsFiltered | src/tools/ExtractInterfaceTool.cpp:395-435 | without include_private the fields are those listed with it, minus the private ones, in body order |
| ExtractInterface.PublicFieldsSnoc | src/tools/ExtractInterfaceTool.cpp:401-403 | filtering distributes over appending one entry |
| ExtractInterface.SlotsCarryAccess | src/tools/ExtractInterfaceTool.cpp:400-432 | every listed method or field carries the access the walk as written gives its body child |
| ExtractInterface.BodyEntry | src/tools/ExtractInterfaceTool.cpp:396-435 | one body child adds its method or its field, if it is listed |
| ExtractInterface.MethodEntry | src/tools/ExtractInterfaceTool.cpp:406-411 | a function_definition's entry is its signature entry with the access attached |
| ExtractInterface.ClassBody | src/tools/ExtractInterfaceTool.cpp:391-437 | the loop over the class body lists the methods and fields of all body children |
| ExtractInterface.TypeNames | src/tools/ExtractInterfaceTool.cpp:373-381 | at most one base name per child |
| ExtractInterface.ClassEntry | src/tools/ExtractInterfaceTool.cpp:328-448 | the class's line is its 1-based start row; bases only for C++; decorators only for Python |
| ExtractInterface.CollectTypeNames | src/tools/ExtractInterfaceTool.cpp:373-381 | the loop collects the texts of the type_identifier children, in order |
| ExtractInterface.FindClassName | src/tools/ExtractInterfaceTool.cpp:338-351 | the loop finds the first type_identifier or identifier child's text, or "" |
| ExtractInterface.FindBaseClasses | src/tools/ExtractInterfaceTool.cpp:366-388 | the bases are those of the first base_class_clause, C++ only |
| ExtractInterface.ExtractClassInterface | src/tools/ExtractInterfaceTool.cpp:328-448 | extract_class_interface computes ClassEntry |
| ExtractInterface.FunctionsOf | src/tools/ExtractInterfaceTool.cpp:245-253 | at most one function per capture |
| ExtractInterface.ClassesOf | src/tools/ExtractInterfaceTool.cpp:261-271 | at most one class per capture |
| ExtractInterface.NamespacesOf | src/tools/ExtractInterfaceTool.cpp:280-289 | at most one namespace per capture |
| ExtractInterface.FileInterface | src/tools/ExtractInterfaceTool.cpp:209-293 | an unreadable file is "Failed to open file" and only it; the interface carries the language and has namespaces only for C++ |
| ExtractInterface.FunctionsOfNext | src/tools/ExtractInterfaceTool.cpp:247-252 | one more capture adds the entry of the captured node itself |
| ExtractInterface.ClassesOfNext | src/tools/ExtractInterfaceTool.cpp:263-270 | one more capture adds the class entry of the captured node's parent |
| ExtractInterface.ListFunctions | src/tools/ExtractInterfaceTool.cpp:245-253 | the loop over the function captures computes FunctionsOf |
| ExtractInterface.ListClasses | src/tools/ExtractInterfaceTool.cpp:261-271 | the loop over the class captures computes ClassesOf |
| ExtractInterface.ListNamespaces | src/tools/ExtractInterfaceTool.cpp:274-290 | the loop over the namespace captures computes NamespacesOf |
| ExtractInterface.ExtractFromFile | src/tools/ExtractInterfaceTool.cpp:209-293 | extract_from_file computes FileInterface |
| ExtractInterface.ExampleNameSite | src/tools/ExtractInterfaceTool.cpp:247-250 | for "def foo(x):" the captured node is the name, while the intended node is the definition |
| ExtractInterface.ExampleDefSignature | src/tools/ExtractInterfaceTool.cpp:484-512 | the definition of "def foo(x):" has the signature "def foo (x):" |
| ExtractInterface.PythonSignatureLost | src/tools/ExtractInterfaceTool.cpp:247-250 | the source's signature for "def foo(x):" is "", where "def foo (x):" is intended |
| ExtractInterfaceTool.MethodEntries | src/tools/ExtractInterfaceTool.cpp:611-619 | one header line per method |
| ExtractInterfaceTool.FieldEntries | src/tools/ExtractInterfaceTool.cpp:622-632 | one header line per field |
| ExtractInterfaceTool.GroupedNext | src/tools/ExtractInterfaceTool.cpp:611-631 | each entry adds its access label exactly when it differs from the previous entry's access, then its line |
| ExtractInterfaceTool.UniformAccessOneLabel | src/tools/ExtractInterfaceTool.cpp:608-631 | a class whose entries share one access gets that label once, before all its lines |
| ExtractInterfaceTool.NamespaceWordCounts | src/tools/ExtractInterfaceTool.cpp:584 | the word "namespace " holds no brace |
| ExtractInterfaceTool.CloseCommentCounts | src/tools/ExtractInterfaceTool.cpp:651 | the comment " // namespace " holds no brace |
| ExtractInterfaceTool.BraceCounts | src/tools/ExtractInterfaceTool.cpp:584-651 | "{" and "}" each hold exactly one brace of their own kind |
| ExtractInterfaceTool.SpacingCounts | src/tools/ExtractInterfaceTool.cpp:584-651 | spaces and newlines hold no brace |
| ExtractInterfaceTool.OpenLineCount | src/tools/ExtractInterfaceTool.cpp:584 | an opening line's brace count is the sum of its pieces' |
| ExtractInterfaceTool.CloseLineCount | src/tools/ExtractInterfaceTool.cpp:651 | a closing line's brace count is the sum of its pieces' |
| ExtractInterfaceTool.OpenLineBraces | src/tools/ExtractInterfaceTool.cpp:584 | an opening line holds one "{" beyond the braces of the name |
| ExtractInterfaceTool.CloseLineBraces | src/tools/ExtractInterfaceTool.cpp:651 | a closing line holds one "}" beyond the braces of the name |
| ExtractInterfaceTool.NamespacesBalanced | src/tools/ExtractInterfaceTool.cpp:582-653 | with brace-free names the header opens exactly one "{" and closes exactly one "}" per namespace |
| ExtractInterfaceTool.GroupedStep | src/tools/ExtractInterfaceTool.cpp:611-631 | one step of the grouping loops appends the piece for the next entry and makes its access the current one |
| ExtractInterfaceTool.ListingsLength | src/tools/ExtractInterfaceTool.cpp:611-632 | a class lists one line per method and per field |
| ExtractInterfaceTool.MethodListingAt | src/tools/ExtractInterfaceTool.cpp:612-618 | a method is listed under its access, public by default, as its indented signature |
| ExtractInterfaceTool.FieldListingAt | src/tools/ExtractInterfaceTool.cpp:624-630 | a field is listed after all the methods, under its access, private by default |
| ExtractInterfaceTool.AppendListing | src/tools/ExtractInterfaceTool.cpp:612-618 | writing one entry keeps the body equal to the grouping of the entries so far |
| ExtractInterfaceTool.GroupMethods | src/tools/ExtractInterfaceTool.cpp:608-619 | the methods loop, from no current access, groups the methods |
| ExtractInterfaceTool.ClassFieldsListed | src/tools/ExtractInterfaceTool.cpp:622-632 | the fields follow the methods in the class's listing |
| ExtractInterfaceTool.AppendField | src/tools/ExtractInterfaceTool.cpp:624-630 | writing one field keeps the body equal to the grouping of the entries so far |
| ExtractInterfaceTool.GroupFields | src/tools/ExtractInterfaceTool.cpp:622-632 | the fields loop, continuing from the methods' access, completes the grouping of all entries |
| ExtractInterfaceTool.ClassBlock | src/tools/ExtractInterfaceTool.cpp:591-634 | a class block is its comment, its head with public bases, the grouped body and the closing "};" |
| ExtractInterfaceTool.RenderOpens | src/tools/ExtractInterfaceTool.cpp:582-586 | the loop opens every namespace, in order |
| ExtractInterfaceTool.RenderCloses | src/tools/ExtractInterfaceTool.cpp:649-653 | the loop closes every namespace, in the same order |
| ExtractInterfaceTool.RenderClasses | src/tools/ExtractInterfaceTool.cpp:589-636 | the loop writes every class block, in order |
| ExtractInterfaceTool.RenderFunctions | src/tools/ExtractInterfaceTool.cpp:639-646 | the loop writes every free function's comment and signature, in order |
| ExtractInterfaceTool.FormatHeader | src/tools/ExtractInterfaceTool.cpp:565-656 | the header is the prelude, the opened namespaces, the classes, the functions and the closed namespaces |
| ExtractInterfaceTool.AsJson | src/tools/ExtractInterfaceTool.cpp:545-563 | the JSON result carries the interface, its path, the function and class counts, and a namespace count exactly for C++ |
| ExtractInterfaceTool.InvalidFormatDistinct | src/tools/ExtractInterfaceTool.cpp:70-151 | the invalid-format error differs from the missing-filepath and nothing-resolved errors |
| ExtractInterfaceTool.SingleOutcome | src/tools/ExtractInterfaceTool.cpp:112-162 | a single file is unsupported exactly for an unknown language, and an invalid output_format is reported only for a file that reads and parses |
| ExtractInterfaceTool.BatchEntry | src/tools/ExtractInterfaceTool.cpp:169-196 | a batch entry names its file; an unknown language gives "Unsupported file type" |
| ExtractInterfaceTool.BatchEntries | src/tools/ExtractInterfaceTool.cpp:169-197 | one entry per resolved file, in order, each naming its file |
| ExtractInterfaceTool.Errors | src/tools/ExtractInterfaceTool.cpp:167-195 | no more errors than entries |
| ExtractInterfaceTool.ProcessBatchEntry | src/tools/ExtractInterfaceTool.cpp:170-196 | the body of the batch loop computes BatchEntry |
| ExtractInterfaceTool.BatchStep | src/tools/ExtractInterfaceTool.cpp:169-196 | one file appends its entry and bumps exactly one of the two counters |
| ExtractInterfaceTool.ProcessBatch | src/tools/ExtractInterfaceTool.cpp:165-197 | the batch loop lists every file's entry, counts the errors as failed and the rest as processed |
| ExtractInterfaceTool.ProcessSingle | src/tools/ExtractInterfaceTool.cpp:112-162 | the single-file branch computes SingleOutcome |
| ExtractInterfaceTool.Execute | src/tools/ExtractInterfaceTool.cpp:69-207 | a missing filepath, a filepath of the wrong type and nothing resolved are the three argument errors; one file is handled alone; several give the batch with its counts |
| McpServer.Server.constructor | src/mcp/MCPServer.cpp:7-13 | a new server has no tools or handlers and is neither running nor initialized |
| McpServer.Server.RegisterTool | src/mcp/MCPServer.cpp:15-26 | an empty name or a missing handler is refused and changes nothing; otherwise the tool is stored under its name, replacing any earlier one |
| McpServer.Server.Stop | src/mcp/MCPServer.cpp:66-69 | stop clears the running flag and changes nothing else |
| McpServer.Server.HandleToolsList | src/mcp/MCPServer.cpp:124-137 | the loop lists every registered tool in name order |
| McpServer.Server.HandleToolsCall | src/mcp/MCPServer.cpp:139-165 | a missing name or an unknown tool is an error; otherwise the handler's result is returned as one serialised text item |
| McpServer.Server.HandleRequest | src/mcp/MCPServer.cpp:71-122 | the reply is the dispatch of the request; the initialized flag is set by a completed initialize and nothing else changes |
| McpServer.Server.Run | src/mcp/MCPServer.cpp:28-64 | the messages written are the replies to every message up to the first empty one, and the server is left stopped |
| McpServer.Server.Serve | src/mcp/MCPServer.cpp:32-48 | one turn answers message k and writes its reply unless the reply is silent |
| McpServer.InvalidRequestExact | src/mcp/MCPServer.cpp:73-81 | -32600 answers exactly the requests without jsonrpc "2.0" or without a method |
| McpServer.MethodNotFoundExact | src/mcp/MCPServer.cpp:83-117 | -32601 answers exactly the well-formed requests whose method is not routed |
| McpServer.SilentExact | src/mcp/MCPServer.cpp:97-100 | only notifications/initialized goes unanswered |
| McpServer.IdEchoed | src/mcp/MCPServer.cpp:73-121 | every answer or handle_request error carries the request's id, or null when jsonrpc is not "2.0"; a method that is not a string escapes to run, which answers with a null id |
| McpServer.InitializeAnswered | src/mcp/MCPServer.cpp:89-188 | initialize sets the initialized flag exactly when it is answered, and the answer names protocol revision 2024-11-05 |
| McpServer.ToolsCallAnswered | src/mcp/MCPServer.cpp:139-165 | a registered tool's result is wrapped as one text item holding its serialisation; an unknown tool is an internal error with the request's id |
| McpServer.ToolsCallWithoutName | src/mcp/MCPServer.cpp:118-142 | tools/call without a name is an internal error naming the missing parameter |
| McpServer.ToolsListed | src/mcp/MCPServer.cpp:124-137 | tools/list gives one entry per registered tool, in name order, each under its own name |
| McpServer.ListedAt | src/mcp/MCPServer.cpp:127-133 | the i-th entry of tools/list is the entry of the i-th tool name |
| McpServer.WrittenShape | src/mcp/MCPServer.cpp:44-47 | a reply writes nothing exactly when it is silent, and whatever it writes is a non-empty JSON-RPC 2.0 message |
| McpServer.ResponseShape | src/mcp/MCPServer.cpp:195-204 | an error response is a non-empty JSON-RPC 2.0 message with the id, code and message given |
| McpServer.RegisteredToolCalled | src/mcp/MCPServer.cpp:15-26 | a tool registered and then called by name runs the registered handler on the call's arguments |

## Left out

- Tree-sitter itself (parsers, queries, cursors, `ts_node_*` calls) is not part of this model. Trees are a datatype, parse results a given function, and query output a given sequence of matches.
- The real filesystem and file reads (`ifstream`, `exists`, `last_write_time`, directory iterators) become an abstract map from path to entry. `std::filesystem::canonical` and the dependency tool's `normalize_path` depend on the process's working directory, so they are function parameters.
- The `std::regex` engine is not modelled. The glob and comment-marker patterns are given their meaning directly.
- PathResolver.ResolvePaths, and every `Execute` that resolves paths, requires the file patterns to hold no regex metacharacter other than `*`, `?` and `.`. The source hands such patterns to the regex unescaped, so their meaning is the regex library's.
- Exceptions thrown inside tree-sitter, file reads or JSON conversions are not modelled, except the ones the source raises itself, such as a failed read, an unknown tool or a missing parameter, and nlohmann::json's type errors 302 and 306 in the server (a method, tool name or clientInfo member that is not a string, and value() on a clientInfo that is not an object), which McpServer models as `NotString` and `NoValue`. Because of this, ClassHierarchyTool.Execute always reports zero failed files. FindReferences.Execute counts as failed exactly the files of unknown language. ExtractInterfaceTool.ProcessBatch counts as failed exactly the files of unknown language and those it cannot read or parse.
- `average_complexity` in the file summary divides floating-point numbers; it is not modelled.
- Search-path and project-root probing in the symbol-context tool walks the filesystem, so it is not modelled. `extract_includes` in the same file lies outside the modelled core.
- `get_info` schemas and the assembly of JSON results are not modelled: results are records. The markdown rendering of extract_interface (`format_as_markdown`) is not modelled either. In that format the model returns the extracted interface with its path, without the markdown text.
- The stdio transport, the command line and the shutdown flag are not modelled. `MCPServer::run` is modelled over a given sequence of incoming messages, and an empty message ends it. Exceptions raised while reading or writing a message are not modelled.
- The thin tool wrappers (parse_file, find_classes, find_functions, execute_query) are not modelled: they only check arguments and forward to the analyzer.
- spdlog logging is not modelled.
- Dead code is not modelled: the `is_override`/`is_final`/`get_access_level` stubs, `extract_member_variable`, and the unused header-guard name in `format_as_header`.
- FindReferences.NodeMatches: a node whose start byte lies past its end byte is treated as no match. In C++, `substr` would wrap the length, but a parsed tree never has such a node.
- FindReferences.Classify compares the call's function child with the node by value, where `ts_node_eq` compares identity. Two distinct nodes with equal kind, range and children cannot both be the function child of one call.
- Integer widths are not modelled: counters, byte offsets and line numbers are unbounded.

## Findings

| source | as written | input that shows it | evidently intended | confidence | as-written member | corrected member |
|---|---|---|---|---|---|---|
| src/tools/GetClassHierarchyTool.cpp:126-145 | a class seen again in a later file keeps the first record's `is_abstract` and only gains that file's bases and methods | a.hpp holds `class Shape;` and b.hpp holds `class Shape { virtual void draw() = 0; };`, scanned in that order: the merged Shape lists a pure virtual method and is not abstract | the merged class is abstract exactly when one of its methods is pure | not executed | ClassHierarchyTool.MergeOneAsWritten, ClassHierarchyTool.ForwardDeclarationNotAbstract | ClassHierarchyTool.MergeOne, ClassHierarchyTool.MergeOneConsistent |
| src/tools/FindReferencesTool.cpp:346-367 | the C++ function rule looks for an identifier among the children of the function's declarator name, which is itself an identifier leaf | `void foo() { bar(); }`, searching for `bar`: no parent scope is reported | the scope of a reference inside a function is that function's name, here `foo` | not executed | FindReferences.ParentScopeAsWritten, FindReferences.FreeFunctionScopeLost | FindReferences.ParentScope, FindReferences.FunctionScopeNamed |
| src/tools/ExtractInterfaceTool.cpp:759-789 | the backward walk for the access specifier stops at the first earlier member and then returns "public" | `class A { private: int a; int b; };`: `int b` is public, and is listed even when private members are excluded | a member's access is the label of the nearest earlier access specifier | not executed | ExtractInterface.AccessAsWritten, ExtractInterface.SecondPrivateMemberPublic | ExtractInterface.Access, ExtractInterface.AccessNearest |
| src/tools/ExtractInterfaceTool.cpp:245-250 | the captured node passed to extract_function_signature is the function's name, as the Python function query captures it | `def foo(x):`: the signature is the empty string | the signature of the function definition, `def foo (x):` | not executed | ExtractInterface.FunctionSiteAsWritten, ExtractInterface.PythonSignatureLost | ExtractInterface.FunctionSite, ExtractInterface.ExampleDefSignature |
| src/tools/GetDependencyGraphTool.cpp:573-593 | cycle edges are remembered as the string from + "->" + to, which forgets where the first name ends | the cycle `["x", "y->z"]` and the edge from `x->y` to `z`: the edge is drawn as a cycle edge although it follows no cycle | an edge is a cycle edge exactly when its two ends are consecutive in some cycle | not executed | DependencyRender.CycleEdgeKeys, DependencyRender.KeyCollision | DependencyRender.CycleEdges, DependencyRender.PairsConsecutive |
