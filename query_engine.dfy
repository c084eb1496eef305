/** QueryEngine: the catalogue of predefined tree-sitter queries and the
    flattening of query matches into per-capture results. Matching
    itself is done by tree-sitter, so the matches arrive as a given
    sequence of matches, each a sequence of captures. */
module QueryEngine {
  import opened Text
  import opened Syntax
  import opened Language

  datatype QueryType =
    | CLASSES
    | FUNCTIONS
    | VIRTUAL_FUNCTIONS
    | INCLUDES
    | NAMESPACES
    | STRUCTS
    | TEMPLATES
    | DECORATORS
    | ASYNC_FUNCTIONS

  /** The query types each language offers (the C++-only and the
      Python-only types of the QueryType documentation). */
  function Supported(lang: Lang): set<QueryType>
  {
    match lang
    case CPP => {CLASSES, FUNCTIONS, VIRTUAL_FUNCTIONS, INCLUDES, NAMESPACES, STRUCTS, TEMPLATES}
    case PYTHON => {CLASSES, FUNCTIONS, INCLUDES, DECORATORS, ASYNC_FUNCTIONS}
    case UNKNOWN => {}
  }

  /** get_predefined_query: the pattern text for a query type in a
      language, or None where the language has no such query. */
  function GetPredefinedQuery(t: QueryType, lang: Lang): (r: Option<string>)
    ensures r.Some? <==> t in Supported(lang)
    ensures r.Some? ==> r.value != []
  {
    match lang
    case CPP =>
      (match t
       case CLASSES => Some("(class_specifier name: (type_identifier) @class_name)")
       case FUNCTIONS => Some("(function_definition) @func_def")
       case VIRTUAL_FUNCTIONS =>
         Some("[" + "  (function_definition" + "    (function_declarator)"
              + "    [(virtual_specifier) (type_qualifier (virtual_specifier))]"
              + "  ) @virtual_func" + "]")
       case INCLUDES => Some("(preproc_include) @include")
       case NAMESPACES => Some("(namespace_definition name: (namespace_identifier) @namespace_name)")
       case STRUCTS => Some("(struct_specifier name: (type_identifier) @struct_name)")
       case TEMPLATES => Some("(template_declaration) @template_decl")
       case _ => None)
    case PYTHON =>
      (match t
       case CLASSES => Some("(class_definition name: (identifier) @class_name)")
       case FUNCTIONS => Some("(function_definition name: (identifier) @func_name)")
       case INCLUDES => Some("[" + "  (import_statement) @import" + "  (import_from_statement) @import_from" + "]")
       case DECORATORS => Some("(decorator) @decorator")
       case ASYNC_FUNCTIONS =>
         Some("(function_definition \"async\" @async_keyword name: (identifier) @async_func_name)")
       case _ => None)
    case UNKNOWN => None
  }

  /** The C++-only types are absent for Python and the Python-only types
      for C++; UNKNOWN has nothing at all. */
  lemma CatalogueSplit(t: QueryType)
    ensures t in {DECORATORS, ASYNC_FUNCTIONS} ==> GetPredefinedQuery(t, CPP).None?
    ensures t in {VIRTUAL_FUNCTIONS, NAMESPACES, STRUCTS, TEMPLATES} ==> GetPredefinedQuery(t, PYTHON).None?
    ensures GetPredefinedQuery(t, UNKNOWN).None?
    ensures GetPredefinedQuery(t, CPP).Some? || GetPredefinedQuery(t, PYTHON).Some?
  {
  }

  /** A capture as tree-sitter reports it: the node and the capture's name. */
  datatype Capture = Capture(name: string, node: Node)

  /** QueryMatch: one flattened result. */
  datatype QueryMatch = QueryMatch(captureName: string, node: Node, line: nat, column: nat, text: string)

  /** The result execute builds for one capture: the 0-based start
      position of the node (get_node_position) and its text, guarded by
      the byte-range check. */
  function CaptureResult(c: Capture, src: string): (r: QueryMatch)
    ensures r.captureName == c.name && r.node == c.node
    ensures r.line == c.node.start.row && r.column == c.node.start.column
    ensures r.text != [] <==> c.node.startByte < |src| && c.node.endByte <= |src| && c.node.startByte < c.node.endByte
    ensures r.text != [] ==> r.text == src[c.node.startByte..c.node.endByte]
  {
    var n := c.node;
    var text := if n.startByte < |src| && n.endByte <= |src| && n.startByte < n.endByte
                then src[n.startByte..n.endByte] else "";
    QueryMatch(c.name, n, n.start.row, n.start.column, text)
  }

  function MatchResults(m: seq<Capture>, src: string): (r: seq<QueryMatch>)
    ensures |r| == |m|
  {
    seq(|m|, i requires 0 <= i < |m| => CaptureResult(m[i], src))
  }

  /** All results, match by match, capture by capture. */
  function Flatten(matches: seq<seq<Capture>>, src: string): seq<QueryMatch>
  {
    if matches == [] then []
    else Flatten(matches[..|matches| - 1], src) + MatchResults(matches[|matches| - 1], src)
  }

  /** Number of captures in all matches. */
  function TotalCaptures(matches: seq<seq<Capture>>): nat
  {
    if matches == [] then 0
    else TotalCaptures(matches[..|matches| - 1]) + |matches[|matches| - 1]|
  }

  /** execute: one result per capture of every match, in match order and
      then capture order. */
  method Execute(matches: seq<seq<Capture>>, src: string) returns (results: seq<QueryMatch>)
    ensures results == Flatten(matches, src)
  {
    results := [];
    var m := 0;
    while m < |matches|
      invariant 0 <= m <= |matches|
      invariant results == Flatten(matches[..m], src)
    {
      var i := 0;
      while i < |matches[m]|
        invariant 0 <= i <= |matches[m]|
        invariant results == Flatten(matches[..m], src) + MatchResults(matches[m][..i], src)
      {
        results := results + [CaptureResult(matches[m][i], src)];
        i := i + 1;
      }
      assert matches[m][..i] == matches[m];
      assert matches[..m + 1][..m] == matches[..m];
      m := m + 1;
    }
    assert matches[..m] == matches;
  }

  /** The output holds exactly as many results as there are captures. */
  lemma {:induction false} FlattenLength(matches: seq<seq<Capture>>, src: string)
    ensures |Flatten(matches, src)| == TotalCaptures(matches)
  {
    if matches != [] {
      FlattenLength(matches[..|matches| - 1], src);
    }
  }

  /** The i-th capture of the m-th match lands at position
      TotalCaptures(matches[..m]) + i. */
  lemma {:induction false} FlattenPosition(matches: seq<seq<Capture>>, src: string, m: nat, i: nat)
    requires m < |matches| && i < |matches[m]|
    ensures TotalCaptures(matches[..m]) + i < |Flatten(matches, src)|
    ensures Flatten(matches, src)[TotalCaptures(matches[..m]) + i] == CaptureResult(matches[m][i], src)
  {
    var last := |matches| - 1;
    var init := matches[..last];
    FlattenLength(init, src);
    FlattenLength(matches, src);
    if m == last {
      assert matches[..m] == init;
    } else {
      assert init[..m] == matches[..m];
      FlattenPosition(init, src, m, i);
    }
  }
}
