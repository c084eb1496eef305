/** The computations of the file-summary tool: line metrics, cyclomatic
    complexity over a syntax tree, the imports a tree declares, and the
    stripping of docstring and comment delimiters. The comment markers
    are in CommentMarkers. */
module FileSummary {
  import opened Text
  import opened Syntax
  import opened Language
  import DependencyGraph

  // ---------------------------------------------------------------------
  // calculate_metrics

  datatype LineKind = Blank | Comment | Code

  /** The four counters of calculate_metrics. */
  datatype Metrics = Metrics(loc: nat, sloc: nat, commentLines: nat, blankLines: nat)

  /** The counters after some lines, and whether a block comment is open. */
  datatype Scan = Scan(metrics: Metrics, inBlock: bool)

  /** `s.substr(0, |p|) == p`. */
  predicate HasPrefix(s: string, p: string)
  {
    |p| <= |s| && s[..|p|] == p
  }

  /** How a trimmed line counts, and whether a block comment is open after
      it. */
  function Classify(trimmed: string, inBlock: bool): (LineKind, bool)
  {
    if trimmed == [] then (Blank, inBlock)
    else if inBlock then (Comment, !Contains(trimmed, "*/"))
    else if HasPrefix(trimmed, "/*") then (Comment, !Contains(trimmed, "*/"))
    else if HasPrefix(trimmed, "//") || trimmed[0] == '#' then (Comment, false)
    else (Code, false)
  }

  function Count(m: Metrics, k: LineKind): Metrics
  {
    match k
    case Blank => m.(loc := m.loc + 1, blankLines := m.blankLines + 1)
    case Comment => m.(loc := m.loc + 1, commentLines := m.commentLines + 1)
    case Code => m.(loc := m.loc + 1, sloc := m.sloc + 1)
  }

  /** The scan over the given lines, each trimmed before it is classified. */
  function ScanOf(lines: seq<string>): Scan
  {
    if lines == [] then Scan(Metrics(0, 0, 0, 0), false)
    else
      var prev := ScanOf(lines[..|lines| - 1]);
      var (kind, open) := Classify(Trim(lines[|lines| - 1]), prev.inBlock);
      Scan(Count(prev.metrics, kind), open)
  }

  /** calculate_metrics: one getline loop with four counters and the
      block-comment flag. */
  method CalculateMetrics(source: string) returns (m: Metrics)
    ensures m == ScanOf(Lines(source)).metrics
  {
    var lines := Lines(source);
    m := Metrics(0, 0, 0, 0);
    var inBlockComment := false;
    var i := 0;
    while i < |lines|
      invariant 0 <= i <= |lines|
      invariant ScanOf(lines[..i]) == Scan(m, inBlockComment)
    {
      ScanNext(lines, i);
      var trimmed := TrimRight(TrimLeft(lines[i], Blanks), BlanksAndEol);
      m, inBlockComment := CountLine(trimmed, m, inBlockComment);
      i := i + 1;
    }
    assert lines[..|lines|] == lines;
  }

  /** The body of the calculate_metrics loop for one trimmed line. */
  method CountLine(trimmed: string, m: Metrics, inBlock: bool) returns (m': Metrics, inBlock': bool)
    ensures (Count(m, Classify(trimmed, inBlock).0), Classify(trimmed, inBlock).1) == (m', inBlock')
  {
    var totalLines, codeLines, commentLines, blankLines := m.loc + 1, m.sloc, m.commentLines, m.blankLines;
    inBlock' := inBlock;
    if trimmed == [] {
      blankLines := blankLines + 1;
    } else if inBlock' {
      commentLines := commentLines + 1;
      if Contains(trimmed, "*/") {
        inBlock' := false;
      }
    } else if HasPrefix(trimmed, "/*") {
      commentLines := commentLines + 1;
      inBlock' := true;
      if Contains(trimmed, "*/") {
        inBlock' := false;
      }
    } else if HasPrefix(trimmed, "//") || trimmed[0] == '#' {
      commentLines := commentLines + 1;
    } else {
      codeLines := codeLines + 1;
    }
    m' := Metrics(totalLines, codeLines, commentLines, blankLines);
  }

  /** The scan of one more line classifies it in the state the previous
      lines left. */
  lemma ScanNext(lines: seq<string>, i: nat)
    requires i < |lines|
    ensures ScanOf(lines[..i + 1])
            == Scan(Count(ScanOf(lines[..i]).metrics, Classify(Trim(lines[i]), ScanOf(lines[..i]).inBlock).0),
                    Classify(Trim(lines[i]), ScanOf(lines[..i]).inBlock).1)
  {
    assert lines[..i + 1][..i] == lines[..i] && lines[..i + 1][i] == lines[i];
  }

  /** Each line is counted exactly once, in exactly one of the three
      classes: loc is the number of lines and the sum of the others. */
  lemma {:induction false} MetricsPartition(lines: seq<string>)
    ensures ScanOf(lines).metrics.loc == |lines|
    ensures ScanOf(lines).metrics.loc
            == ScanOf(lines).metrics.sloc + ScanOf(lines).metrics.commentLines + ScanOf(lines).metrics.blankLines
  {
    if lines != [] {
      MetricsPartition(lines[..|lines| - 1]);
    }
  }

  /** The number of lines that are empty after trimming. */
  function BlankIn(lines: seq<string>): nat
  {
    if lines == [] then 0
    else BlankIn(lines[..|lines| - 1]) + if Trim(lines[|lines| - 1]) == [] then 1 else 0
  }

  /** A line that is empty after trimming is blank whatever the block
      state, so the blank count ignores comments altogether. */
  lemma {:induction false} BlankLinesIgnoreBlocks(lines: seq<string>)
    ensures ScanOf(lines).metrics.blankLines == BlankIn(lines)
  {
    if lines != [] {
      BlankLinesIgnoreBlocks(lines[..|lines| - 1]);
    }
  }

  /** The lines that start a line comment: "//" or '#' after trimming. */
  function LineCommentsIn(lines: seq<string>): nat
  {
    if lines == [] then 0
    else
      var t := Trim(lines[|lines| - 1]);
      LineCommentsIn(lines[..|lines| - 1]) + if t != [] && (HasPrefix(t, "//") || t[0] == '#') then 1 else 0
  }

  /** Without any line opening a block comment, the comment lines are
      exactly those starting with "//" or '#' (so a preprocessor line
      counts as a comment), and every other non-blank line is code. */
  lemma {:induction false} MetricsWithoutBlocks(lines: seq<string>)
    requires forall k :: 0 <= k < |lines| ==> !HasPrefix(Trim(lines[k]), "/*")
    ensures !ScanOf(lines).inBlock
    ensures ScanOf(lines).metrics.commentLines == LineCommentsIn(lines)
    ensures ScanOf(lines).metrics.sloc == |lines| - BlankIn(lines) - LineCommentsIn(lines)
  {
    if lines != [] {
      var init := lines[..|lines| - 1];
      assert forall k :: 0 <= k < |init| ==> init[k] == lines[k];
      MetricsWithoutBlocks(init);
      var t := Trim(lines[|lines| - 1]);
      assert !HasPrefix(t, "/*");
      assert ScanOf(lines) == Scan(Count(ScanOf(init).metrics, Classify(t, false).0), Classify(t, false).1);
      MetricsPartition(lines);
      MetricsPartition(init);
      BlankLinesIgnoreBlocks(lines);
      BlankLinesIgnoreBlocks(init);
    }
  }

  /** Once a block comment is open, every following non-blank line is a
      comment up to and including the first one containing its close. */
  lemma {:induction false} BlockCommentLines(lines: seq<string>, more: seq<string>)
    requires ScanOf(lines).inBlock
    requires forall k :: 0 <= k < |more| ==> !Contains(Trim(more[k]), "*/")
    ensures ScanOf(lines + more).inBlock
    ensures ScanOf(lines + more).metrics.sloc == ScanOf(lines).metrics.sloc
    decreases |more|
  {
    if more != [] {
      var init := more[..|more| - 1];
      assert (lines + more)[..|lines + more| - 1] == lines + init;
      assert forall k :: 0 <= k < |init| ==> init[k] == more[k];
      BlockCommentLines(lines, init);
    } else {
      assert lines + more == lines;
    }
  }

  // ---------------------------------------------------------------------
  // calculate_complexity

  /** The node kinds that count as decision points. */
  const BranchKinds: set<string> :=
    {"if_statement", "for_statement", "while_statement", "do_statement", "case_statement",
     "catch_clause", "conditional_expression", "logical_and", "logical_or"}

  /** The decision points among the visited nodes. */
  function Branches(vs: seq<Visit>): nat
  {
    if vs == [] then 0
    else Branches(vs[..|vs| - 1]) + if vs[|vs| - 1].node.kind in BranchKinds then 1 else 0
  }

  /** The complexity calculate_complexity reports for a subtree. */
  function Complexity(n: Node): nat
  {
    1 + Branches(Walk(n, []))
  }

  /** calculate_complexity: a cursor walk over the subtree, in pre-order,
      counting the decision points. The cursor is modelled by the stack of
      subtrees still to visit. */
  method CalculateComplexity(node: Node) returns (complexity: nat)
    ensures complexity == Complexity(node)
  {
    complexity := 1;
    var pending := [Visit(node, [])];
    ghost var visited: seq<Visit> := [];
    WalkAllSingle(Visit(node, []));
    while pending != []
      invariant visited + WalkAll(pending) == Walk(node, [])
      invariant complexity == 1 + Branches(visited)
      decreases |WalkAll(pending)|
    {
      var current := pending[0];
      WalkNext(Walk(node, []), visited, pending);
      var next := ChildVisits(current) + pending[1..];
      if current.node.kind in BranchKinds {
        complexity := complexity + 1;
      }
      visited := visited + [current];
      pending := next;
    }
    assert visited == Walk(node, []);
  }

  /** The decision points of a subtree, counted on the tree itself. */
  function TreeBranches(n: Node): nat
    decreases n, 1
  {
    (if n.kind in BranchKinds then 1 else 0) + TreeBranchesSeq(n.children)
  }

  function TreeBranchesSeq(ns: seq<Node>): nat
    decreases ns, 0
  {
    if ns == [] then 0 else TreeBranches(ns[0]) + TreeBranchesSeq(ns[1..])
  }

  lemma {:induction false} BranchesAppend(a: seq<Visit>, b: seq<Visit>)
    ensures Branches(a + b) == Branches(a) + Branches(b)
    decreases |b|
  {
    if b == [] {
      assert a + b == a;
    } else {
      assert (a + b)[..|a + b| - 1] == a + b[..|b| - 1];
      BranchesAppend(a, b[..|b| - 1]);
    }
  }

  lemma {:induction false} WalkBranches(n: Node, ancestors: seq<Node>)
    ensures Branches(Walk(n, ancestors)) == TreeBranches(n)
    decreases n, 1
  {
    BranchesAppend([Visit(n, ancestors)], WalkSeq(n.children, ancestors + [n]));
    assert [Visit(n, ancestors)][..0] == [];
    WalkSeqBranches(n.children, ancestors + [n]);
  }

  lemma {:induction false} WalkSeqBranches(ns: seq<Node>, ancestors: seq<Node>)
    ensures Branches(WalkSeq(ns, ancestors)) == TreeBranchesSeq(ns)
    decreases ns, 0
  {
    if ns != [] {
      BranchesAppend(Walk(ns[0], ancestors), WalkSeq(ns[1..], ancestors));
      WalkBranches(ns[0], ancestors);
      WalkSeqBranches(ns[1..], ancestors);
    }
  }

  /** The walk counts each decision point of the subtree once: the
      complexity is one more than the decision points of the tree, so it
      is at least 1 and at most one more than the number of nodes. */
  lemma ComplexityOfTree(n: Node)
    ensures Complexity(n) == 1 + TreeBranches(n)
    ensures 1 <= Complexity(n) <= 1 + Size(n)
  {
    WalkBranches(n, []);
    TreeBranchesBound(n);
  }

  lemma {:induction false} TreeBranchesBound(n: Node)
    ensures TreeBranches(n) <= Size(n)
    decreases n, 1
  {
    TreeBranchesSeqBound(n.children);
  }

  lemma {:induction false} TreeBranchesSeqBound(ns: seq<Node>)
    ensures TreeBranchesSeq(ns) <= SizeSeq(ns)
    decreases ns, 0
  {
    if ns != [] {
      TreeBranchesBound(ns[0]);
      TreeBranchesSeqBound(ns[1..]);
    }
  }

  // ---------------------------------------------------------------------
  // extract_imports

  datatype ImportInfo = ImportInfo(path: string, line: nat, isSystem: bool, moduleName: string)

  /** A C++ include read from its path text: system when the text starts
      with '<', and the first and last characters dropped when there are
      at least two. */
  function IncludeImport(text: string, line: nat): (r: ImportInfo)
    ensures r.isSystem <==> text != [] && text[0] == '<'
    ensures |r.path| == if |text| >= 2 then |text| - 2 else |text|
    ensures r.line == line && r.moduleName == ""
  {
    ImportInfo(if |text| >= 2 then text[1..|text| - 1] else text, line, text != [] && text[0] == '<', "")
  }

  /** The path is the text without its first and last characters, which
      puts the text back together; a shorter text is kept whole. */
  lemma IncludeImportRoundTrip(text: string, line: nat)
    ensures |text| >= 2 ==> text == [text[0]] + IncludeImport(text, line).path + [text[|text| - 1]]
    ensures |text| < 2 ==> IncludeImport(text, line).path == text
  {
    if |text| >= 2 {
      assert text == [text[0]] + text[1..|text| - 1] + [text[|text| - 1]];
    }
  }

  /** The delimiters come off exactly, and on delimited paths the file
      summary and the dependency graph read an include alike. */
  lemma IncludeDelimited(p: string, line: nat)
    ensures IncludeImport("<" + p + ">", line) == ImportInfo(p, line, true, "")
    ensures IncludeImport("\"" + p + "\"", line) == ImportInfo(p, line, false, "")
    ensures forall text :: |text| >= 2 && text[0] in {'"', '<'} ==>
              IncludeImport(text, line).path == DependencyGraph.IncludeTarget(text).path
              && IncludeImport(text, line).isSystem == DependencyGraph.IncludeTarget(text).isSystem
  {
    var a := "<" + p + ">";
    assert a[1..|a| - 1] == p;
    var b := "\"" + p + "\"";
    assert b[1..|b| - 1] == p;
  }

  /** The import one visited node contributes, if any. */
  function ImportAt(v: Visit, src: string, lang: Lang): Option<ImportInfo>
  {
    var n := v.node;
    if lang == CPP && n.kind == "preproc_include" then
      match ChildByField(n, "path")
      case None => None
      case Some(p) => Some(IncludeImport(NodeText(src, p), n.start.row + 1))
    else if lang == PYTHON && (n.kind == "import_statement" || n.kind == "import_from_statement") then
      Some(ImportInfo(NodeText(src, n), n.start.row + 1, false, NodeText(src, n)))
    else None
  }

  /** The imports of the visited nodes, in visiting order. */
  function ImportsOf(vs: seq<Visit>, src: string, lang: Lang): seq<ImportInfo>
  {
    if vs == [] then []
    else
      ImportsOf(vs[..|vs| - 1], src, lang)
        + match ImportAt(vs[|vs| - 1], src, lang)
          case None => []
          case Some(i) => [i]
  }

  /** extract_imports: a pre-order cursor walk over the whole tree for C++
      and Python, nothing for any other language. */
  method ExtractImports(root: Node, src: string, lang: Lang) returns (imports: seq<ImportInfo>)
    ensures imports == ImportsOf(Walk(root, []), src, lang)
  {
    imports := [];
    if lang != CPP && lang != PYTHON {
      NoImportsElsewhere(Walk(root, []), src, lang);
      return;
    }
    var pending := [Visit(root, [])];
    ghost var visited: seq<Visit> := [];
    WalkAllSingle(Visit(root, []));
    while pending != []
      invariant visited + WalkAll(pending) == Walk(root, [])
      invariant imports == ImportsOf(visited, src, lang)
      decreases |WalkAll(pending)|
    {
      var current := pending[0];
      WalkNext(Walk(root, []), visited, pending);
      var next := ChildVisits(current) + pending[1..];
      var found := ImportAt(current, src, lang);
      if found.Some? {
        assert ImportsOf(visited + [current], src, lang) == ImportsOf(visited, src, lang) + [found.value];
        imports := imports + [found.value];
      } else {
        assert ImportsOf(visited + [current], src, lang) == ImportsOf(visited, src, lang) + [];
      }
      visited := visited + [current];
      pending := next;
    }
    assert visited == Walk(root, []);
  }

  lemma {:induction false} NoImportsElsewhere(vs: seq<Visit>, src: string, lang: Lang)
    requires lang == UNKNOWN
    ensures ImportsOf(vs, src, lang) == []
  {
    if vs != [] {
      NoImportsElsewhere(vs[..|vs| - 1], src, lang);
    }
  }

  /** Every import comes from a visited node of the right kind, on that
      node's 1-based line; a Python import is never a system import and
      names the statement text as both path and module. */
  lemma {:induction false} ImportsFromNodes(vs: seq<Visit>, src: string, lang: Lang)
    ensures |ImportsOf(vs, src, lang)| <= |vs|
    ensures forall i :: 0 <= i < |ImportsOf(vs, src, lang)| ==> ImportsOf(vs, src, lang)[i].line >= 1
    ensures lang == PYTHON ==> forall i :: 0 <= i < |ImportsOf(vs, src, lang)| ==>
              !ImportsOf(vs, src, lang)[i].isSystem && ImportsOf(vs, src, lang)[i].moduleName == ImportsOf(vs, src, lang)[i].path
    ensures lang == CPP ==> forall i :: 0 <= i < |ImportsOf(vs, src, lang)| ==> ImportsOf(vs, src, lang)[i].moduleName == ""
  {
    if vs != [] {
      ImportsFromNodes(vs[..|vs| - 1], src, lang);
    }
  }

  // ---------------------------------------------------------------------
  // get_docstring: delimiter stripping

  /** A Python docstring literal without its triple quotes, when it has
      them and is at least six characters long. */
  function PythonDocstring(text: string): string
  {
    if |text| >= 6 && (text[..3] == "\"\"\"" || text[..3] == "'''") then text[3..|text| - 3] else text
  }

  /** Stripping undoes the triple quotes of either kind. */
  lemma PythonDocstringRoundTrip(body: string)
    ensures PythonDocstring("\"\"\"" + body + "\"\"\"") == body
    ensures PythonDocstring("'''" + body + "'''") == body
  {
    var a := "\"\"\"" + body + "\"\"\"";
    assert a[..3] == "\"\"\"" && a[3..|a| - 3] == body;
    var b := "'''" + body + "'''";
    assert b[..3] == "'''" && b[3..|b| - 3] == body;
  }

  // A C++ comment without its leading "//", or without its leading "/*"
  // and its last two characters when it is at least four long.
  function StripDelimiters(text: string): string
  {
    if |text| >= 2 && text[..2] == "//" then text[2..]
    else if |text| >= 4 && text[..2] == "/*" then text[2..|text| - 2]
    else text
  }

  /** The comment text get_docstring returns for C++: the comment without
      its delimiters, trimmed. */
  function CppComment(text: string): string
  {
    Trim(StripDelimiters(text))
  }

  /** Stripping undoes a line comment up to the surrounding blanks. */
  lemma LineCommentRoundTrip(body: string)
    ensures CppComment("//" + body) == Trim(body)
  {
    var a := "//" + body;
    assert a[..2] == "//" && a[2..] == body;
  }

  /** Stripping undoes a block comment up to the surrounding blanks. */
  lemma BlockCommentRoundTrip(body: string)
    ensures CppComment("/*" + body + "*/") == Trim(body)
  {
    var b := "/*" + body + "*/";
    assert b[..2] == "/*" && b[..2] != "//" && b[2..|b| - 2] == body;
  }

  /** A stripped comment never starts with a blank or ends with a blank or
      line end. */
  lemma CppCommentTrimmed(text: string)
    ensures CppComment(text) == [] ||
            (CppComment(text)[0] !in Blanks && CppComment(text)[|CppComment(text)| - 1] !in BlanksAndEol)
  {
    TrimEnds(StripDelimiters(text));
  }
}
