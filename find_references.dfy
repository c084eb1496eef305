/** The find-references tool: every identifier node whose text is the
    symbol, with its 1-based position, how it is used (declared, defined,
    called, accessed as a member, used as a type), the trimmed line it
    sits on and the function or class around it; and the tool's argument
    handling over the files the path resolver finds. Reading files goes
    through the file-system map and parsing through the `parse`
    parameter. */
module FindReferences {
  import opened Text
  import opened Syntax
  import opened Language
  import opened FileSystem
  import opened Ordering
  import opened PathResolver
  import ASTAnalyzer

  // ---------------------------------------------------------------------
  // node_matches_symbol

  /** node_matches_symbol: a node whose range ends past the source never
      matches; any other node matches when its bytes are the symbol. */
  function NodeMatches(n: Node, symbol: string, src: string): (r: bool)
    ensures r ==> OccursAt(src, symbol, n.startByte) && n.endByte == n.startByte + |symbol|
    ensures r <==> n.startByte <= n.endByte <= |src| && NodeText(src, n) == symbol
  {
    if n.endByte > |src| then false
    else if n.startByte > n.endByte then false
    else src[n.startByte..n.endByte] == symbol
  }

  // ---------------------------------------------------------------------
  // ReferenceType, reference_type_to_string

  datatype RefKind = Declaration | Definition | Call | MemberAccess | TypeUsage | Unknown

  /** The name of each kind as it appears in the result's "type" field. */
  function KindName(k: RefKind): (r: string)
    ensures r != []
    ensures KindOfName(r) == Some(k)
  {
    match k
    case Declaration => "declaration"
    case Definition => "definition"
    case Call => "call"
    case MemberAccess => "member_access"
    case TypeUsage => "type_usage"
    case Unknown => "unknown"
  }

  /** The kind a name stands for, if any: the reading a client of the
      result makes of its "type" field. */
  function KindOfName(s: string): Option<RefKind>
  {
    if s == "declaration" then Some(Declaration)
    else if s == "definition" then Some(Definition)
    else if s == "call" then Some(Call)
    else if s == "member_access" then Some(MemberAccess)
    else if s == "type_usage" then Some(TypeUsage)
    else if s == "unknown" then Some(Unknown)
    else None
  }

  /** Different kinds are written differently. */
  lemma KindNamesDistinct(a: RefKind, b: RefKind)
    ensures KindName(a) == KindName(b) <==> a == b
  {
    if KindName(a) == KindName(b) {
      assert KindOfName(KindName(a)) == Some(a);
      assert KindOfName(KindName(b)) == Some(b);
    }
  }

  // ---------------------------------------------------------------------
  // classify_reference

  const DeclarationParents: set<string> :=
    {"declarator", "parameter_declaration", "variable_declarator", "init_declarator"}
  const DefinitionGrandparents: set<string> := {"function_definition", "class_specifier"}
  const MemberParents: set<string> := {"field_expression", "qualified_identifier", "attribute"}
  const TypeParents: set<string> := {"type_identifier", "sized_type_specifier", "type_descriptor", "class_type"}

  /** The node is the "function" child of a call_expression parent. */
  predicate IsCallee(v: Visit)
  {
    |v.ancestors| >= 1
    && v.ancestors[|v.ancestors| - 1].kind == "call_expression"
    && ChildByField(v.ancestors[|v.ancestors| - 1], "function") == Some(v.node)
  }

  predicate ParentIn(v: Visit, kinds: set<string>)
  {
    |v.ancestors| >= 1 && v.ancestors[|v.ancestors| - 1].kind in kinds
  }

  predicate GrandparentIn(v: Visit, kinds: set<string>)
  {
    |v.ancestors| >= 2 && v.ancestors[|v.ancestors| - 2].kind in kinds
  }

  /** classify_reference: the rules are tried in order and the first that
      applies decides; a node without a parent is of unknown use. */
  function Classify(v: Visit): (r: RefKind)
    ensures v.ancestors == [] ==> r == Unknown
    ensures r == Call <==> IsCallee(v)
    ensures r == Declaration <==> !IsCallee(v) && ParentIn(v, DeclarationParents)
    ensures r == Definition <==>
      !IsCallee(v) && !ParentIn(v, DeclarationParents) && GrandparentIn(v, DefinitionGrandparents)
    ensures r == MemberAccess <==>
      !IsCallee(v) && !ParentIn(v, DeclarationParents) && !GrandparentIn(v, DefinitionGrandparents)
      && ParentIn(v, MemberParents)
    ensures r == TypeUsage <==>
      !IsCallee(v) && !ParentIn(v, DeclarationParents) && !GrandparentIn(v, DefinitionGrandparents)
      && !ParentIn(v, MemberParents) && ParentIn(v, TypeParents)
  {
    if v.ancestors == [] then Unknown
    else
      var parent := v.ancestors[|v.ancestors| - 1];
      if parent.kind == "call_expression" && ChildByField(parent, "function") == Some(v.node) then Call
      else if parent.kind in DeclarationParents then Declaration
      else if |v.ancestors| >= 2 && v.ancestors[|v.ancestors| - 2].kind in DefinitionGrandparents then Definition
      else if parent.kind in MemberParents then MemberAccess
      else if parent.kind in TypeParents then TypeUsage
      else Unknown
  }

  // ---------------------------------------------------------------------
  // extract_context

  predicate NoNewline(s: string)
  {
    forall k :: 0 <= k < |s| ==> s[k] != '\n'
  }

  /** The end of the line that starts at `j`: the next '\n', or the end
      of the source. */
  function LineEnd(s: string, j: nat): (e: nat)
    requires j <= |s|
    ensures j <= e <= |s|
    ensures e < |s| ==> s[e] == '\n'
    decreases |s| - j
  {
    if j == |s| || s[j] == '\n' then j else LineEnd(s, j + 1)
  }

  /** No '\n' lies between a line start and its end. */
  lemma {:induction false} LineEndClear(s: string, j: nat)
    requires j <= |s|
    ensures forall k :: j <= k < LineEnd(s, j) ==> s[k] != '\n'
    decreases |s| - j
  {
    if j < |s| && s[j] != '\n' {
      LineEndClear(s, j + 1);
    }
  }

  /** The end of a line is the first '\n' from its start, or the end. */
  lemma {:induction false} LineEndAt(s: string, j: nat, e: nat)
    requires j <= e <= |s|
    requires forall k :: j <= k < e ==> s[k] != '\n'
    requires e == |s| || s[e] == '\n'
    ensures LineEnd(s, j) == e
    decreases e - j
  {
    if j < e {
      LineEndAt(s, j + 1, e);
    }
  }

  /** The line the scan of extract_context lands on, counting rows from
      the line that starts at `start`: past one '\n' per row while there
      is one, up to the next '\n'. Past the last '\n' the scan stays on
      the last line. */
  function LineFrom(s: string, start: nat, row: nat): string
    requires start <= |s|
    decreases |s| - start
  {
    var e := LineEnd(s, start);
    if row == 0 || e == |s| then s[start..e] else LineFrom(s, e + 1, row - 1)
  }

  /** A line holds no '\n'. */
  lemma {:induction false} LineFromClear(s: string, start: nat, row: nat)
    requires start <= |s|
    ensures NoNewline(LineFrom(s, start, row))
    decreases |s| - start
  {
    var e := LineEnd(s, start);
    if row == 0 || e == |s| {
      LineEndClear(s, start);
      assert forall k :: 0 <= k < e - start ==> s[start..e][k] == s[start + k];
    } else {
      LineFromClear(s, e + 1, row - 1);
    }
  }

  function LineAt(s: string, row: nat): string
  {
    LineFrom(s, 0, row)
  }

  /** The context of a reference: its line without leading or trailing
      blanks (a '\r' before the line end stays). */
  function ContextLine(src: string, row: nat): (r: string)
    ensures NoNewline(r)
    ensures r == [] || (r[0] !in Blanks && r[|r| - 1] !in Blanks)
  {
    LineFromClear(src, 0, row);
    var t := TrimLeft(LineAt(src, row), Blanks);
    assert NoNewline(t) by {
      var l := LineAt(src, row);
      assert forall k :: 0 <= k < |t| ==> t[k] == l[|l| - |t| + k];
    }
    TrimRight(t, Blanks)
  }

  /** Line ends and lines do not depend on the text before them. */
  lemma {:induction false} LineEndShift(s: string, a: nat, j: nat)
    requires a + j <= |s|
    ensures LineEnd(s, a + j) == a + LineEnd(s[a..], j)
    decreases |s| - a - j
  {
    if a + j < |s| {
      assert s[a..][j] == s[a + j];
      if s[a + j] != '\n' {
        LineEndShift(s, a, j + 1);
      }
    }
  }

  lemma {:induction false} LineFromShift(s: string, a: nat, j: nat, row: nat)
    requires a + j <= |s|
    ensures LineFrom(s, a + j, row) == LineFrom(s[a..], j, row)
    decreases |s| - a - j
  {
    LineEndShift(s, a, j);
    var e := LineEnd(s[a..], j);
    if row == 0 || a + e == |s| {
      ShiftedLastLine(s, a, j, e, row);
    } else {
      LineFromShift(s, a, e + 1, row - 1);
      ShiftedNextLine(s, a, j, e, row);
    }
  }

  lemma ShiftedLastLine(s: string, a: nat, j: nat, e: nat, row: nat)
    requires a + j <= |s| && e == LineEnd(s[a..], j) && LineEnd(s, a + j) == a + e
    requires row == 0 || a + e == |s|
    ensures LineFrom(s, a + j, row) == LineFrom(s[a..], j, row)
  {
    assert s[a + j..a + e] == s[a..][j..e];
  }

  lemma ShiftedNextLine(s: string, a: nat, j: nat, e: nat, row: nat)
    requires a + j <= |s| && e == LineEnd(s[a..], j) && LineEnd(s, a + j) == a + e
    requires row > 0 && a + e < |s|
    ensures LineFrom(s, a + j, row) == LineFrom(s, a + (e + 1), row - 1)
    ensures LineFrom(s[a..], j, row) == LineFrom(s[a..], e + 1, row - 1)
  {
  }

  /** Where std::string::find finds no '\n', the scan reads to the end. */
  lemma LastLine(t: string, row: nat)
    requires row < |Lines(t)| && FindChar(t, '\n').None?
    ensures LineAt(t, row) == Lines(t)[row]
  {
    LineEndAt(t, 0, |t|);
    assert t[0..|t|] == t;
  }

  /** The first line ends where std::string::find finds the first '\n'. */
  lemma FirstLine(t: string, i: nat)
    requires FindChar(t, '\n') == Some(i)
    ensures LineAt(t, 0) == Lines(t)[0]
  {
    LineEndAt(t, 0, i);
    assert t[0..i] == t[..i];
  }

  /** Past the first '\n', the scan goes on in the rest of the text. */
  lemma NextLine(t: string, i: nat, row: nat)
    requires FindChar(t, '\n') == Some(i) && 0 < row < |Lines(t)|
    ensures row - 1 < |Lines(t[i + 1..])|
    ensures LineAt(t[i + 1..], row - 1) == Lines(t[i + 1..])[row - 1] ==> LineAt(t, row) == Lines(t)[row]
  {
    ScanPastNewline(t, i, row);
    LinesPastNewline(t, i, row);
  }

  lemma ScanPastNewline(t: string, i: nat, row: nat)
    requires FindChar(t, '\n') == Some(i) && 0 < row
    ensures LineAt(t, row) == LineAt(t[i + 1..], row - 1)
  {
    PastNewline(t, 0, i, row);
    LineFromShift(t, i + 1, 0, row - 1);
    assert LineFrom(t, i + 1 + 0, row - 1) == LineFrom(t[i + 1..], 0, row - 1);
  }

  lemma LinesPastNewline(t: string, i: nat, row: nat)
    requires FindChar(t, '\n') == Some(i) && 0 < row < |Lines(t)|
    ensures row - 1 < |Lines(t[i + 1..])| && Lines(t)[row] == Lines(t[i + 1..])[row - 1]
  {
    assert Lines(t) == [t[..i]] + Lines(t[i + 1..]);
  }

  /** Within the lines std::getline yields, the scan lands on line `row`. */
  lemma {:induction false} LineAtIsLine(t: string, row: nat)
    requires row < |Lines(t)|
    ensures LineAt(t, row) == Lines(t)[row]
    decreases |t|
  {
    match FindChar(t, '\n')
    case None =>
      LastLine(t, row);
    case Some(i) =>
      if row == 0 {
        FirstLine(t, i);
      } else {
        NextLine(t, i, row);
        LineAtIsLine(t[i + 1..], row - 1);
      }
  }

  /** Past a '\n' that ends the current line, the scan goes on one row
      further down. */
  lemma PastNewline(s: string, lineStart: nat, i: nat, rows: nat)
    requires lineStart <= i < |s| && s[i] == '\n' && rows > 0
    requires forall k :: lineStart <= k < i ==> s[k] != '\n'
    ensures LineFrom(s, lineStart, rows) == LineFrom(s, i + 1, rows - 1)
  {
    LineEndAt(s, lineStart, i);
  }

  /** The first loop of extract_context: count '\n' characters up to
      `row`, remembering where the line after the last one starts. */
  method FindLineStart(src: string, row: nat) returns (lineStart: nat, current: nat)
    ensures lineStart <= |src| && current <= row
    ensures LineAt(src, row) == LineFrom(src, lineStart, row - current)
    ensures current < row ==> forall k :: lineStart <= k < |src| ==> src[k] != '\n'
  {
    lineStart := 0;
    current := 0;
    var i := 0;
    while i < |src| && current < row
      invariant 0 <= lineStart <= i <= |src| && current <= row
      invariant LineAt(src, row) == LineFrom(src, lineStart, row - current)
      invariant forall k :: lineStart <= k < i ==> src[k] != '\n'
    {
      lineStart, current := StepLine(src, row, lineStart, current, i);
      i := i + 1;
    }
  }

  /** One iteration of the first loop of extract_context. */
  method StepLine(src: string, row: nat, lineStart: nat, current: nat, i: nat) returns (lineStart': nat, current': nat)
    requires lineStart <= i < |src| && current < row
    requires LineAt(src, row) == LineFrom(src, lineStart, row - current)
    requires forall k :: lineStart <= k < i ==> src[k] != '\n'
    ensures lineStart' <= i + 1 && current' <= row
    ensures LineAt(src, row) == LineFrom(src, lineStart', row - current')
    ensures forall k :: lineStart' <= k < i + 1 ==> src[k] != '\n'
  {
    lineStart', current' := lineStart, current;
    if src[i] == '\n' {
      PastNewline(src, lineStart, i, row - current);
      current' := current + 1;
      lineStart' := i + 1;
    }
  }

  /** The second loop of extract_context: run to the next '\n' or the end. */
  method FindLineEnd(src: string, lineStart: nat) returns (lineEnd: nat)
    requires lineStart <= |src|
    ensures lineEnd == LineEnd(src, lineStart)
  {
    lineEnd := lineStart;
    while lineEnd < |src| && src[lineEnd] != '\n'
      invariant lineStart <= lineEnd <= |src|
      invariant forall k :: lineStart <= k < lineEnd ==> src[k] != '\n'
    {
      lineEnd := lineEnd + 1;
    }
    LineEndAt(src, lineStart, lineEnd);
  }

  /** extract_context: find the start of line `row`, then its end, then
      trim blanks on both sides. */
  method ExtractContext(src: string, row: nat) returns (line: string)
    ensures line == ContextLine(src, row)
  {
    var lineStart, current := FindLineStart(src, row);
    var lineEnd := FindLineEnd(src, lineStart);
    line := src[lineStart..lineEnd];
    line := TrimLeft(line, Blanks);
    line := TrimRight(line, Blanks);
  }

  // ---------------------------------------------------------------------
  // find_parent_scope

  const IdentifierKinds: set<string> := {"identifier", "field_identifier"}

  /** The first child of kind identifier or field_identifier. */
  function FirstIdentifier(ns: seq<Node>): (r: Option<nat>)
    ensures r.Some? ==> r.value < |ns| && ns[r.value].kind in IdentifierKinds
    ensures r.Some? ==> forall j :: 0 <= j < r.value ==> ns[j].kind !in IdentifierKinds
    ensures r.None? ==> forall j :: 0 <= j < |ns| ==> ns[j].kind !in IdentifierKinds
  {
    if ns == [] then None
    else if ns[0].kind in IdentifierKinds then Some(0)
    else match FirstIdentifier(ns[1..])
      case None => None
      case Some(k) => Some(k + 1)
  }

  /** The loop over the children of the name node. */
  method FindIdentifierChild(n: Node) returns (r: Option<nat>)
    ensures r == FirstIdentifier(n.children)
  {
    var i := 0;
    while i < |n.children|
      invariant 0 <= i <= |n.children|
      invariant forall j :: 0 <= j < i ==> n.children[j].kind !in IdentifierKinds
    {
      if n.children[i].kind in IdentifierKinds {
        FirstIdentifierIs(n.children, i);
        return Some(i);
      }
      i := i + 1;
    }
    FirstIdentifierNone(n.children);
    r := None;
  }

  lemma {:induction false} FirstIdentifierIs(ns: seq<Node>, i: nat)
    requires i < |ns| && ns[i].kind in IdentifierKinds
    requires forall j :: 0 <= j < i ==> ns[j].kind !in IdentifierKinds
    ensures FirstIdentifier(ns) == Some(i)
  {
    if i > 0 {
      FirstIdentifierIs(ns[1..], i - 1);
    }
  }

  lemma {:induction false} FirstIdentifierNone(ns: seq<Node>)
    requires forall j :: 0 <= j < |ns| ==> ns[j].kind !in IdentifierKinds
    ensures FirstIdentifier(ns) == None
  {
    if ns != [] {
      FirstIdentifierNone(ns[1..]);
    }
  }

  /** The node the function name is looked for in: the declarator's own
      "declarator" child, or the declarator itself. */
  function NameNode(declarator: Node): Node
  {
    match ChildByField(declarator, "declarator")
    case Some(d) => d
    case None => declarator
  }

  /** The scope name the C++ function rule gives, as written: the first
      identifier child of the name node. A name node that is itself an
      identifier (the `foo` of `void foo()`) has no children, so the rule
      gives nothing for it. */
  function FunctionRuleAsWritten(p: Node, src: string): Option<string>
  {
    if p.kind in {"function_definition", "function_declaration"} then
      match ChildByField(p, "declarator")
      case None => None
      case Some(d) =>
        var nn := NameNode(d);
        match FirstIdentifier(nn.children)
        case None => None
        case Some(k) => Some(NodeText(src, nn.children[k]))
    else None
  }

  /** The C++ function rule as intended: the name node itself when it is
      an identifier, otherwise its first identifier child. */
  function FunctionRule(p: Node, src: string): Option<string>
  {
    if p.kind in {"function_definition", "function_declaration"} then
      match ChildByField(p, "declarator")
      case None => None
      case Some(d) =>
        var nn := NameNode(d);
        if nn.kind in IdentifierKinds then Some(NodeText(src, nn))
        else match FirstIdentifier(nn.children)
          case None => None
          case Some(k) => Some(NodeText(src, nn.children[k]))
    else None
  }

  /** The class rule (C++ class or struct) and the Python rule (function
      or class): the text of the "name" child. */
  function NamedRule(p: Node, src: string): Option<string>
  {
    if p.kind in {"class_specifier", "struct_specifier", "function_definition", "class_definition"} then
      match ChildByField(p, "name")
      case None => None
      case Some(nn) => Some(NodeText(src, nn))
    else None
  }

  function ScopeNameAsWritten(p: Node, src: string): Option<string>
  {
    if FunctionRuleAsWritten(p, src).Some? then FunctionRuleAsWritten(p, src) else NamedRule(p, src)
  }

  /** The name an ancestor gives the scope, if it gives one. */
  function ScopeName(p: Node, src: string): Option<string>
  {
    if FunctionRule(p, src).Some? then FunctionRule(p, src) else NamedRule(p, src)
  }

  /** The name the nearest ancestor gives under the rule `name`, or ""
      at global scope: the walk up the parents stops at the first ancestor
      the rule names. */
  function Nearest(ancestors: seq<Node>, name: Node -> Option<string>): string
  {
    if ancestors == [] then ""
    else match name(ancestors[|ancestors| - 1])
      case Some(n) => n
      case None => Nearest(ancestors[..|ancestors| - 1], name)
  }

  function ScopeRuleAsWritten(src: string): Node -> Option<string>
  {
    p => ScopeNameAsWritten(p, src)
  }

  function ScopeRule(src: string): Node -> Option<string>
  {
    p => ScopeName(p, src)
  }

  /** find_parent_scope as written. */
  function ParentScopeAsWritten(ancestors: seq<Node>, src: string): string
  {
    Nearest(ancestors, ScopeRuleAsWritten(src))
  }

  /** find_parent_scope with the intended function rule. */
  function ParentScope(ancestors: seq<Node>, src: string): string
  {
    Nearest(ancestors, ScopeRule(src))
  }

  lemma {:induction false} NearestIs(ancestors: seq<Node>, name: Node -> Option<string>)
    ensures (forall k :: 0 <= k < |ancestors| ==> name(ancestors[k]).None?) ==> Nearest(ancestors, name) == ""
    ensures forall k :: 0 <= k < |ancestors| && name(ancestors[k]).Some?
                        && (forall j :: k < j < |ancestors| ==> name(ancestors[j]).None?)
                        ==> Nearest(ancestors, name) == name(ancestors[k]).value
  {
    if ancestors != [] {
      var init := ancestors[..|ancestors| - 1];
      NearestIs(init, name);
      assert forall k :: 0 <= k < |init| ==> init[k] == ancestors[k];
    }
  }

  /** The scope is the name the nearest naming ancestor gives, and "" when
      no ancestor names one. */
  lemma ParentScopeNearest(ancestors: seq<Node>, src: string)
    ensures (forall k :: 0 <= k < |ancestors| ==> ScopeName(ancestors[k], src).None?) ==> ParentScope(ancestors, src) == ""
    ensures forall k :: 0 <= k < |ancestors| && ScopeName(ancestors[k], src).Some?
                        && (forall j :: k < j < |ancestors| ==> ScopeName(ancestors[j], src).None?)
                        ==> ParentScope(ancestors, src) == ScopeName(ancestors[k], src).value
  {
    NearestIs(ancestors, ScopeRule(src));
    assert forall p :: ScopeRule(src)(p) == ScopeName(p, src);
  }

  /** As written too, the scope is the name the nearest naming ancestor
      gives under the rules as written, and "" when none does. */
  lemma ParentScopeAsWrittenNearest(ancestors: seq<Node>, src: string)
    ensures (forall k :: 0 <= k < |ancestors| ==> ScopeNameAsWritten(ancestors[k], src).None?)
            ==> ParentScopeAsWritten(ancestors, src) == ""
    ensures forall k :: 0 <= k < |ancestors| && ScopeNameAsWritten(ancestors[k], src).Some?
                        && (forall j :: k < j < |ancestors| ==> ScopeNameAsWritten(ancestors[j], src).None?)
                        ==> ParentScopeAsWritten(ancestors, src) == ScopeNameAsWritten(ancestors[k], src).value
  {
    NearestIs(ancestors, ScopeRuleAsWritten(src));
    assert forall p :: ScopeRuleAsWritten(src)(p) == ScopeNameAsWritten(p, src);
  }

  /** Inside a function whose declarator names it by a plain identifier,
      the scope is that identifier. */
  lemma FunctionScopeNamed(ancestors: seq<Node>, src: string, d: Node)
    requires ancestors != [] && ancestors[|ancestors| - 1].kind == "function_definition"
    requires ChildByField(ancestors[|ancestors| - 1], "declarator") == Some(d)
    requires NameNode(d).kind == "identifier"
    ensures ParentScope(ancestors, src) == NodeText(src, NameNode(d))
  {
    assert ScopeRule(src)(ancestors[|ancestors| - 1]) == Some(NodeText(src, NameNode(d)));
  }

  /** As written, the same function is passed over: its scope is looked
      for further out. */
  lemma FunctionScopeSkipped(ancestors: seq<Node>, src: string, d: Node)
    requires ancestors != [] && ancestors[|ancestors| - 1].kind == "function_definition"
    requires ChildByField(ancestors[|ancestors| - 1], "declarator") == Some(d)
    requires NameNode(d).kind == "identifier" && NameNode(d).children == []
    requires ChildByField(ancestors[|ancestors| - 1], "name").None?
    ensures ParentScopeAsWritten(ancestors, src) == ParentScopeAsWritten(ancestors[..|ancestors| - 1], src)
  {
    assert ScopeRuleAsWritten(src)(ancestors[|ancestors| - 1]).None?;
  }

  // The tree of `void foo() { bar(); }` down to the call of `bar`.
  const ExampleSource := "void foo() { bar(); }"
  const ExampleBar := Node("identifier", 13, 16, Point(0, 13), Point(0, 16), [], map[])
  const ExampleCall := Node("call_expression", 13, 18, Point(0, 13), Point(0, 18),
                            [ExampleBar, Node("argument_list", 16, 18, Point(0, 16), Point(0, 18), [], map[])],
                            map["function" := 0, "arguments" := 1])
  const ExampleStatement := Node("expression_statement", 13, 19, Point(0, 13), Point(0, 19), [ExampleCall], map[])
  const ExampleBody := Node("compound_statement", 11, 21, Point(0, 11), Point(0, 21), [ExampleStatement], map[])
  const ExampleFoo := Node("identifier", 5, 8, Point(0, 5), Point(0, 8), [], map[])
  const ExampleDeclarator := Node("function_declarator", 5, 10, Point(0, 5), Point(0, 10),
                                  [ExampleFoo, Node("parameter_list", 8, 10, Point(0, 8), Point(0, 10), [], map[])],
                                  map["declarator" := 0, "parameters" := 1])
  const ExampleFunction := Node("function_definition", 0, 21, Point(0, 0), Point(0, 21),
                                [Node("primitive_type", 0, 4, Point(0, 0), Point(0, 4), [], map[]), ExampleDeclarator, ExampleBody],
                                map["type" := 0, "declarator" := 1, "body" := 2])
  const ExampleUnit := Node("translation_unit", 0, 21, Point(0, 0), Point(0, 21), [ExampleFunction], map[])
  /** The ancestors of `bar`, the parent last. */
  const ExampleAncestors := [ExampleUnit, ExampleFunction, ExampleBody, ExampleStatement, ExampleCall]

  lemma ExampleNoScopeAsWritten(k: nat)
    requires k < |ExampleAncestors|
    ensures ScopeRuleAsWritten(ExampleSource)(ExampleAncestors[k]).None?
  {
    assert ChildByField(ExampleFunction, "declarator") == Some(ExampleDeclarator);
    assert NameNode(ExampleDeclarator) == ExampleFoo;
  }

  lemma ExampleScopes(k: nat)
    requires k < |ExampleAncestors|
    ensures k == 1 ==> ScopeRule(ExampleSource)(ExampleAncestors[k]) == Some("foo")
    ensures k > 1 ==> ScopeRule(ExampleSource)(ExampleAncestors[k]).None?
  {
    assert ChildByField(ExampleFunction, "declarator") == Some(ExampleDeclarator);
    assert NameNode(ExampleDeclarator) == ExampleFoo;
    assert ExampleSource[5..8] == "foo";
  }

  /** `void foo() { bar(); }`: the call to `bar` sits in `foo`, yet the
      rule as written reports global scope. */
  lemma FreeFunctionScopeLost()
    ensures ParentScopeAsWritten(ExampleAncestors, ExampleSource) == ""
    ensures ParentScope(ExampleAncestors, ExampleSource) == "foo"
  {
    forall k | 0 <= k < |ExampleAncestors|
      ensures ScopeRuleAsWritten(ExampleSource)(ExampleAncestors[k]).None?
    {
      ExampleNoScopeAsWritten(k);
    }
    NearestIs(ExampleAncestors, ScopeRuleAsWritten(ExampleSource));
    forall k | 1 < k < |ExampleAncestors|
      ensures ScopeRule(ExampleSource)(ExampleAncestors[k]).None?
    {
      ExampleScopes(k);
    }
    ExampleScopes(1);
    NearestIs(ExampleAncestors, ScopeRule(ExampleSource));
  }

  /** The walk up the parents, trying the rules on each. */
  method FindParentScope(ancestors: seq<Node>, src: string) returns (scope: string)
    ensures scope == ParentScopeAsWritten(ancestors, src)
  {
    var i := |ancestors|;
    assert ancestors[..i] == ancestors;
    while i > 0
      invariant 0 <= i <= |ancestors|
      invariant ParentScopeAsWritten(ancestors, src) == ParentScopeAsWritten(ancestors[..i], src)
    {
      var current := ancestors[i - 1];
      assert ancestors[..i][..i - 1] == ancestors[..i - 1];
      if current.kind == "function_definition" || current.kind == "function_declaration" {
        var declarator := ChildByField(current, "declarator");
        if declarator.Some? {
          var nameNode := NameNode(declarator.value);
          var k := FindIdentifierChild(nameNode);
          if k.Some? {
            return NodeText(src, nameNode.children[k.value]);
          }
        }
      }
      if current.kind in {"class_specifier", "struct_specifier", "function_definition", "class_definition"} {
        var nameNode := ChildByField(current, "name");
        if nameNode.Some? {
          return NodeText(src, nameNode.value);
        }
      }
      i := i - 1;
    }
    scope := "";
  }

  // ---------------------------------------------------------------------
  // find_in_file

  /** Reference: one occurrence of the symbol. */
  datatype Reference = Reference(
    filepath: string,
    line: nat,
    column: nat,
    kind: RefKind,
    context: string,
    parentScope: string,
    nodeType: string)

  const ReferenceKinds: set<string> := {"identifier", "type_identifier", "field_identifier"}

  /** The reference a visited node makes, if it is an identifier whose
      text is the symbol. */
  function RefAt(v: Visit, path: string, src: string, symbol: string): (r: Option<Reference>)
    ensures r.Some? ==> v.node.kind in ReferenceKinds && NodeMatches(v.node, symbol, src)
    ensures r.Some? ==> r.value.filepath == path && r.value.line >= 1 && r.value.column >= 1
    ensures r.Some? ==> r.value.nodeType == v.node.kind && NoNewline(r.value.context)
  {
    if v.node.kind in ReferenceKinds && NodeMatches(v.node, symbol, src) then
      Some(Reference(path, v.node.start.row + 1, v.node.start.column + 1, Classify(v),
                     ContextLine(src, v.node.start.row), ParentScopeAsWritten(v.ancestors, src), v.node.kind))
    else None
  }

  function RefAtOf(path: string, src: string, symbol: string): Visit -> Option<Reference>
  {
    v => RefAt(v, path, src, symbol)
  }

  /** What a walk collects: the reference each visited node makes, in
      visiting order. */
  function Collect(vs: seq<Visit>, at: Visit -> Option<Reference>): (r: seq<Reference>)
    ensures |r| <= |vs|
  {
    if vs == [] then []
    else Collect(vs[..|vs| - 1], at) + match at(vs[|vs| - 1]) case None => [] case Some(x) => [x]
  }

  /** The references of the visited nodes, in visiting order. */
  function RefsIn(vs: seq<Visit>, path: string, src: string, symbol: string): seq<Reference>
  {
    Collect(vs, RefAtOf(path, src, symbol))
  }

  lemma CollectNext(vs: seq<Visit>, v: Visit, at: Visit -> Option<Reference>)
    ensures Collect(vs + [v], at) == Collect(vs, at) + match at(v) case None => [] case Some(x) => [x]
  {
    assert (vs + [v])[..|vs|] == vs;
  }

  lemma {:induction false} CollectExact(vs: seq<Visit>, at: Visit -> Option<Reference>, x: Reference)
    ensures x in Collect(vs, at) <==> exists k :: 0 <= k < |vs| && at(vs[k]) == Some(x)
  {
    if vs != [] {
      var init := vs[..|vs| - 1];
      CollectExact(init, at, x);
      assert forall k :: 0 <= k < |init| ==> init[k] == vs[k];
      if exists k :: 0 <= k < |vs| && at(vs[k]) == Some(x) {
        var k :| 0 <= k < |vs| && at(vs[k]) == Some(x);
        if k < |init| {
          assert at(init[k]) == Some(x);
        }
      }
    }
  }

  /** A reference is found exactly for each visited node that makes one. */
  lemma RefsExact(vs: seq<Visit>, path: string, src: string, symbol: string, x: Reference)
    ensures x in RefsIn(vs, path, src, symbol) <==> exists k :: 0 <= k < |vs| && RefAt(vs[k], path, src, symbol) == Some(x)
  {
    CollectExact(vs, RefAtOf(path, src, symbol), x);
    assert forall k :: 0 <= k < |vs| ==> RefAtOf(path, src, symbol)(vs[k]) == RefAt(vs[k], path, src, symbol);
  }

  /** Every reference is in the searched file, at a 1-based position, on
      an identifier node, with a one-line context. */
  lemma RefsWellFormed(vs: seq<Visit>, path: string, src: string, symbol: string)
    ensures forall x :: x in RefsIn(vs, path, src, symbol) ==>
      x.filepath == path && x.line >= 1 && x.column >= 1 && x.nodeType in ReferenceKinds && NoNewline(x.context)
  {
    forall x | x in RefsIn(vs, path, src, symbol)
      ensures x.filepath == path && x.line >= 1 && x.column >= 1 && x.nodeType in ReferenceKinds && NoNewline(x.context)
    {
      RefsExact(vs, path, src, symbol, x);
    }
  }

  /** The quick text search only saves work: a source that does not
      contain the symbol has no node whose text is the symbol. */
  lemma QuickFilterSound(vs: seq<Visit>, path: string, src: string, symbol: string)
    requires !Contains(src, symbol)
    ensures RefsIn(vs, path, src, symbol) == []
  {
    ContainsIff(src, symbol);
    var r := RefsIn(vs, path, src, symbol);
    if r != [] {
      RefsExact(vs, path, src, symbol, r[0]);
      assert false;
    }
  }

  /** find_in_file: a file that cannot be read, does not contain the
      symbol as text, or does not parse has no references; otherwise the
      references of the pre-order walk of its tree. */
  function FileRefs(fs: FS, path: string, symbol: string, lang: Lang, parse: ASTAnalyzer.Parser): seq<Reference>
  {
    match ReadFile(fs, path)
    case None => []
    case Some(src) =>
      if !Contains(src, symbol) then []
      else match parse(lang, src)
        case None => []
        case Some(root) => RefsIn(Walk(root, []), path, src, symbol)
  }

  /** The quick text search does not change the result: without it the
      walk would find nothing either. */
  lemma FileRefsUnfiltered(fs: FS, path: string, symbol: string, lang: Lang, parse: ASTAnalyzer.Parser)
    requires ReadFile(fs, path).Some?
    requires parse(lang, ReadFile(fs, path).value).Some?
    ensures var src := ReadFile(fs, path).value;
            FileRefs(fs, path, symbol, lang, parse) == RefsIn(Walk(parse(lang, src).value, []), path, src, symbol)
  {
    var src := ReadFile(fs, path).value;
    if !Contains(src, symbol) {
      QuickFilterSound(Walk(parse(lang, src).value, []), path, src, symbol);
    }
  }

  /** The cursor walk over the tree, collecting references. */
  method WalkRefs(root: Node, path: string, src: string, symbol: string) returns (refs: seq<Reference>)
    ensures refs == RefsIn(Walk(root, []), path, src, symbol)
  {
    refs := [];
    var pending := [Visit(root, [])];
    ghost var visited: seq<Visit> := [];
    WalkAllSingle(Visit(root, []));
    while pending != []
      invariant visited + WalkAll(pending) == Walk(root, [])
      invariant refs == RefsIn(visited, path, src, symbol)
      decreases |WalkAll(pending)|
    {
      var current := pending[0];
      WalkNext(Walk(root, []), visited, pending);
      var next := ChildVisits(current) + pending[1..];
      CollectNext(visited, current, RefAtOf(path, src, symbol));
      var node := current.node;
      if node.kind in ReferenceKinds && NodeMatches(node, symbol, src) {
        var context := ExtractContext(src, node.start.row);
        var scope := FindParentScope(current.ancestors, src);
        refs := refs + [Reference(path, node.start.row + 1, node.start.column + 1, Classify(current),
                                  context, scope, node.kind)];
      }
      visited := visited + [current];
      pending := next;
    }
    assert visited + [] == visited;
  }

  method FindInFile(fs: FS, path: string, symbol: string, lang: Lang, parse: ASTAnalyzer.Parser)
    returns (refs: seq<Reference>)
    ensures refs == FileRefs(fs, path, symbol, lang, parse)
  {
    var contents := ReadFile(fs, path);
    if contents.None? {
      return [];
    }
    var src := contents.value;
    if Find(src, symbol).None? {
      return [];
    }
    var tree := parse(lang, src);
    if tree.None? {
      return [];
    }
    refs := WalkRefs(tree.value, path, src, symbol);
  }

  // ---------------------------------------------------------------------
  // execute

  /** What a file contributes: nothing when its language is unknown. */
  function RefsOfFile(fs: FS, path: string, symbol: string, parse: ASTAnalyzer.Parser): seq<Reference>
  {
    var lang := DetectFromExtension(path);
    if lang == UNKNOWN then [] else FileRefs(fs, path, symbol, lang, parse)
  }

  function RefsOfFileFn(fs: FS, symbol: string, parse: ASTAnalyzer.Parser): string -> seq<Reference>
  {
    path => RefsOfFile(fs, path, symbol, parse)
  }

  /** The references of the files, in file order. */
  function ConcatRefs(files: seq<string>, each: string -> seq<Reference>): seq<Reference>
  {
    if files == [] then [] else ConcatRefs(files[..|files| - 1], each) + each(files[|files| - 1])
  }

  /** How many of the files have no known language. */
  function UnknownFiles(files: seq<string>): (n: nat)
    ensures n <= |files|
  {
    if files == [] then 0
    else UnknownFiles(files[..|files| - 1]) + if DetectFromExtension(files[|files| - 1]) == UNKNOWN then 1 else 0
  }

  /** The loop over the resolved files with its two counters. */
  method SearchFiles(fs: FS, files: seq<string>, symbol: string, parse: ASTAnalyzer.Parser)
    returns (refs: seq<Reference>, processed: nat, failed: nat)
    ensures refs == ConcatRefs(files, RefsOfFileFn(fs, symbol, parse))
    ensures failed == UnknownFiles(files)
    ensures processed + failed == |files|
  {
    refs := [];
    processed := 0;
    failed := 0;
    var i := 0;
    while i < |files|
      invariant 0 <= i <= |files|
      invariant refs == ConcatRefs(files[..i], RefsOfFileFn(fs, symbol, parse))
      invariant failed == UnknownFiles(files[..i])
      invariant processed + failed == i
    {
      var path := files[i];
      assert files[..i + 1][..i] == files[..i] && files[..i + 1][i] == path;
      var lang := DetectFromExtension(path);
      if lang == UNKNOWN {
        failed := failed + 1;
      } else {
        var found := FindInFile(fs, path, symbol, lang, parse);
        refs := refs + found;
        processed := processed + 1;
      }
      assert RefsOfFileFn(fs, symbol, parse)(path) == RefsOfFile(fs, path, symbol, parse);
      i := i + 1;
    }
    assert files[..i] == files;
  }

  /** The filepath argument: a string, an array of strings, or anything
      else. */
  datatype PathArg = PathString(path: string) | PathArray(paths: seq<string>) | PathOther

  datatype Args = Args(
    symbol: Option<string>,
    filepath: Option<PathArg>,
    recursive: Option<bool>,
    filePatterns: Option<seq<string>>)

  const DefaultPatterns: seq<string> := ["*.cpp", "*.hpp", "*.h", "*.cc", "*.cxx", "*.py"]

  function OrDefault<T>(o: Option<T>, d: T): T
  {
    match o
    case Some(v) => v
    case None => d
  }

  function Patterns(a: Args): seq<string>
  {
    OrDefault(a.filePatterns, DefaultPatterns)
  }

  /** The paths searched: the string, the array, or "." when absent. */
  function InputPaths(p: Option<PathArg>): seq<string>
  {
    match p
    case None => ["."]
    case Some(PathString(s)) => [s]
    case Some(PathArray(ps)) => ps
    case Some(PathOther) => []
  }

  const MissingSymbol := "Missing required parameter: symbol"
  const BadFilepath := "filepath must be a string or array of strings"
  const NothingResolved := "No files found matching the specified paths"

  datatype Outcome =
    | Failure(error: string)
    | Report(
        symbol: string,
        totalReferences: nat,
        filesSearched: nat,
        filesProcessed: nat,
        filesFailed: nat,
        references: seq<Reference>)

  /** The files execute searches, in the order the path resolver yields. */
  function SearchedFiles(fs: FS, a: Args, canonical: string -> string): seq<string>
    requires AllPlain(Patterns(a))
  {
    InOrder(Resolved(fs, InputPaths(a.filepath), OrDefault(a.recursive, true), Patterns(a), canonical), ComparePaths)
  }

  /** execute: the argument errors in the order they are checked, then
      the references of every resolved file, a file of unknown language
      counted as failed. */
  method Execute(fs: FS, a: Args, parse: ASTAnalyzer.Parser, canonical: string -> string)
    returns (out: Outcome)
    requires AllPlain(Patterns(a))
    ensures a.symbol.None? <==> out == Failure(MissingSymbol)
    ensures a.symbol.Some? && a.filepath == Some(PathOther) ==> out == Failure(BadFilepath)
    ensures a.symbol.Some? && a.filepath != Some(PathOther) ==>
      (out == Failure(NothingResolved) <==> SearchedFiles(fs, a, canonical) == [])
    ensures a.symbol.Some? && a.filepath != Some(PathOther) && SearchedFiles(fs, a, canonical) != [] ==> out.Report?
    ensures out.Report? ==>
      var files := SearchedFiles(fs, a, canonical);
      && a.symbol.Some? && a.filepath != Some(PathOther) && files != []
      && out.symbol == a.symbol.value
      && out.references == ConcatRefs(files, RefsOfFileFn(fs, a.symbol.value, parse))
      && out.totalReferences == |out.references|
      && out.filesSearched == |files|
      && out.filesFailed == UnknownFiles(files)
      && out.filesProcessed + out.filesFailed == out.filesSearched
  {
    if a.symbol.None? {
      return Failure(MissingSymbol);
    }
    var symbol := a.symbol.value;
    var recursive := OrDefault(a.recursive, true);
    var patterns := Patterns(a);
    if a.filepath == Some(PathOther) {
      return Failure(BadFilepath);
    }
    var paths := InputPaths(a.filepath);
    var resolved := ResolvePaths(fs, paths, recursive, patterns, canonical);
    ghost var found := Resolved(fs, paths, recursive, patterns, canonical);
    InOrderSorted(found, ComparePaths);
    SortedUnique(resolved, InOrder(found, ComparePaths), ComparePaths);
    if resolved == [] {
      return Failure(NothingResolved);
    }
    var refs, processed, failed := SearchFiles(fs, resolved, symbol, parse);
    out := Report(symbol, |refs|, |resolved|, processed, failed, refs);
  }
}
