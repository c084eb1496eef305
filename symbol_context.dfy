/** The symbol-context tool: locating a symbol in a syntax tree, its
    signature and definition record, the symbols its definition uses,
    line numbers from byte offsets, the window of lines around a usage,
    and the usage examples with their cap. Reading files goes through the
    file-system map and parsing through the `parse` parameter. */
module SymbolContext {
  import opened Text
  import opened Syntax
  import opened Language
  import opened FileSystem
  import ASTAnalyzer

  // ---------------------------------------------------------------------
  // get_node_text, get_line_number

  /** get_node_text: the node's bytes when its range is a nonempty range
      of the source, otherwise the empty string. */
  function GetNodeText(src: string, n: Node): (r: string)
    ensures r == NodeText(src, n)
    ensures r != [] <==> n.startByte < n.endByte <= |src|
    ensures |r| <= |src|
  {
    if n.startByte >= |src| || n.endByte > |src| || n.startByte >= n.endByte then ""
    else src[n.startByte..n.endByte]
  }

  function Min(a: int, b: int): int
  {
    if a < b then a else b
  }

  function Max(a: int, b: int): int
  {
    if a < b then b else a
  }

  /** get_line_number: one plus the newlines before the offset, the
      offset clamped to the source. */
  method GetLineNumber(src: string, offset: nat) returns (line: nat)
    ensures line == 1 + CountChar(src[..Min(offset, |src|)], '\n')
  {
    line := 1;
    var i := 0;
    while i < offset && i < |src|
      invariant 0 <= i <= Min(offset, |src|)
      invariant line == 1 + CountChar(src[..i], '\n')
    {
      assert src[..i + 1] == src[..i] + [src[i]];
      CountCharAppend(src[..i], [src[i]], '\n');
      if src[i] == '\n' {
        line := line + 1;
      }
      i := i + 1;
    }
  }

  /** The line number of an offset is the number std::getline gives the
      line the offset falls in: the lines of the text before it, plus one
      when that text ends a line. */
  lemma LineNumberIsGetlineLine(src: string, offset: nat)
    ensures var before := src[..Min(offset, |src|)];
            1 + CountChar(before, '\n')
              == |Lines(before)| + (if before == [] || before[|before| - 1] == '\n' then 1 else 0)
  {
    LinesCount(src[..Min(offset, |src|)]);
  }

  /** Later offsets never have smaller line numbers, and no offset lies
      past the last line. */
  lemma LineNumberMonotone(src: string, a: nat, b: nat)
    requires a <= b
    ensures CountChar(src[..Min(a, |src|)], '\n') <= CountChar(src[..Min(b, |src|)], '\n')
    ensures CountChar(src[..Min(b, |src|)], '\n') <= CountChar(src, '\n')
  {
    CountCharPrefix(src, Min(a, |src|), Min(b, |src|), '\n');
    CountCharPrefix(src, Min(b, |src|), |src|, '\n');
    assert src[..|src|] == src;
  }

  // ---------------------------------------------------------------------
  // Qualified names

  /** A symbol name split at its first "::" into class and member; both
      parts are empty when there is no "::". */
  datatype Qualified = Qualified(isQualified: bool, className: string, memberName: string)

  function SplitQualified(symbol: string): (q: Qualified)
    ensures q.isQualified <==> Contains(symbol, "::")
    ensures !q.isQualified ==> q.className == [] && q.memberName == []
  {
    match Find(symbol, "::")
    case None => Qualified(false, "", "")
    case Some(p) => Qualified(true, symbol[..p], symbol[p + 2..])
  }

  /** The split puts the name back together, and the class part holds no
      "::" of its own. */
  lemma QualifiedRoundTrip(symbol: string)
    ensures SplitQualified(symbol).isQualified ==>
              symbol == SplitQualified(symbol).className + "::" + SplitQualified(symbol).memberName
              && !Contains(SplitQualified(symbol).className, "::")
  {
    match Find(symbol, "::")
    case None =>
    case Some(p) =>
      var c := symbol[..p];
      assert symbol == c + "::" + symbol[p + 2..];
      if Contains(c, "::") {
        var j := Find(c, "::").value;
        assert OccursAt(c, "::", j);
        assert symbol[j..j + 2] == c[j..j + 2];
        assert OccursAt(symbol, "::", j);
        assert false;
      }
  }

  /** extract_definition's parent class: for a method, the text before
      the first "::" of its name. */
  function ParentClass(kind: string, name: string): (r: string)
    ensures kind != "method" ==> r == []
  {
    if kind == "method" then
      match Find(name, "::")
      case None => ""
      case Some(p) => name[..p]
    else ""
  }

  /** The parent class of a method is the class part locate_symbol split
      off the same name. */
  lemma ParentClassIsClassPart(name: string)
    ensures ParentClass("method", name) == SplitQualified(name).className
  {
  }

  // ---------------------------------------------------------------------
  // locate_symbol

  /** The text up to the first '(' (all of it when there is none). */
  function CutAtParen(text: string): (r: string)
    ensures '(' !in r
    ensures |r| <= |text| && r == text[..|r|]
    ensures |r| < |text| ==> text[|r|] == '('
  {
    match FindChar(text, '(')
    case None => text
    case Some(p) => text[..p]
  }

  /** A match of locate_symbol: the kind is "function", "method" or
      "class"; lines are 1-based. */
  datatype Location = Location(name: string, kind: string, startLine: nat, endLine: nat, startByte: nat, endByte: nat)

  function LocationOf(n: Node, symbol: string, kind: string): Location
  {
    Location(symbol, kind, n.start.row + 1, n.end.row + 1, n.startByte, n.endByte)
  }

  /** A function definition matches when its declarator text, cut at the
      first '(', contains the symbol (an equal name in particular). */
  predicate FunctionMatches(n: Node, src: string, symbol: string)
  {
    n.kind == "function_definition"
    && match ChildByField(n, "declarator")
       case None => false
       case Some(d) => Contains(CutAtParen(GetNodeText(src, d)), symbol)
  }

  predicate IsClassKind(kind: string)
  {
    kind == "class_specifier" || kind == "struct_specifier"
  }

  predicate IsMemberKind(kind: string)
  {
    kind == "function_definition" || kind == "field_declaration"
  }

  /** Whether a class-body child is a member whose declarator text
      contains the member name. */
  predicate MemberMatches(c: Node, src: string, member: string)
  {
    IsMemberKind(c.kind)
    && match ChildByField(c, "declarator")
       case None => false
       case Some(d) => Contains(GetNodeText(src, d), member)
  }

  /** The first member of a class body that matches. */
  function FirstMember(cs: seq<Node>, src: string, member: string): (r: Option<Node>)
    ensures r.Some? ==> r.value in cs && MemberMatches(r.value, src, member)
    ensures r.None? ==> forall c :: c in cs ==> !MemberMatches(c, src, member)
  {
    if cs == [] then None
    else if MemberMatches(cs[0], src, member) then Some(cs[0])
    else
      var r := FirstMember(cs[1..], src, member);
      assert forall c :: c in cs ==> c == cs[0] || c in cs[1..];
      r
  }

  /** What a class or struct node yields: itself when its name is the
      symbol, or, for a qualified symbol naming it as the class, the first
      matching member of its body. */
  function ClassHit(n: Node, src: string, symbol: string, q: Qualified): Option<Location>
  {
    if !IsClassKind(n.kind) then None
    else match ChildByField(n, "name")
      case None => None
      case Some(nameNode) =>
        var name := GetNodeText(src, nameNode);
        if name != symbol && name != q.className then None
        else if q.isQualified && name == q.className then
          match ChildByField(n, "body")
          case None => None
          case Some(body) =>
            match FirstMember(body.children, src, q.memberName)
            case None => None
            case Some(c) => Some(LocationOf(c, symbol, "method"))
        else Some(LocationOf(n, symbol, "class"))
  }

  /** What one node yields on its own, before its children are searched. */
  function Hit(n: Node, src: string, symbol: string): (r: Option<Location>)
    ensures FunctionMatches(n, src, symbol) ==> r == Some(LocationOf(n, symbol, "function"))
    ensures n.kind == "function_definition" && !FunctionMatches(n, src, symbol) ==> r.None?
    ensures !IsClassKind(n.kind) && n.kind != "function_definition" ==> r.None?
  {
    if FunctionMatches(n, src, symbol) then Some(LocationOf(n, symbol, "function"))
    else ClassHit(n, src, symbol, SplitQualified(symbol))
  }

  /** The recursive search of locate_symbol: the node itself, then each
      child in turn, stopping at the first result. */
  function Search(n: Node, src: string, symbol: string): Option<Location>
    decreases n, 1
  {
    match Hit(n, src, symbol)
    case Some(l) => Some(l)
    case None => SearchSeq(n.children, src, symbol)
  }

  function SearchSeq(ns: seq<Node>, src: string, symbol: string): Option<Location>
    decreases ns, 0
  {
    if ns == [] then None
    else match Search(ns[0], src, symbol)
      case Some(l) => Some(l)
      case None => SearchSeq(ns[1..], src, symbol)
  }

  /** Hit for a fixed source and symbol, as a function of the node. */
  function HitOf(src: string, symbol: string): Node -> Option<Location>
  {
    n => Hit(n, src, symbol)
  }

  /** The first hit along a sequence of visited nodes. */
  function FirstHit(vs: seq<Visit>, hit: Node -> Option<Location>): Option<Location>
  {
    if vs == [] then None
    else match hit(vs[0].node)
      case Some(l) => Some(l)
      case None => FirstHit(vs[1..], hit)
  }

  /** FirstHit is the hit of the earliest node that has one. */
  lemma {:induction false} FirstHitFirst(vs: seq<Visit>, hit: Node -> Option<Location>)
    ensures FirstHit(vs, hit).None? <==> forall k :: 0 <= k < |vs| ==> hit(vs[k].node).None?
    ensures FirstHit(vs, hit).Some? ==>
              exists k :: 0 <= k < |vs| && hit(vs[k].node) == FirstHit(vs, hit)
                          && forall j :: 0 <= j < k ==> hit(vs[j].node).None?
  {
    if vs != [] && hit(vs[0].node).None? {
      var rest := vs[1..];
      FirstHitFirst(rest, hit);
      assert forall j :: 0 <= j < |rest| ==> rest[j] == vs[j + 1];
      if FirstHit(vs, hit).Some? {
        var k :| 0 <= k < |rest| && hit(rest[k].node) == FirstHit(rest, hit)
                 && forall j :: 0 <= j < k ==> hit(rest[j].node).None?;
        assert hit(vs[k + 1].node) == FirstHit(vs, hit);
        assert forall j :: 0 <= j < k + 1 ==> hit(vs[j].node).None? by {
          forall j | 0 <= j < k + 1 ensures hit(vs[j].node).None? {
            if j > 0 {
              assert vs[j] == rest[j - 1];
            }
          }
        }
      }
    }
  }

  lemma {:induction false} FirstHitAppend(a: seq<Visit>, b: seq<Visit>, hit: Node -> Option<Location>)
    ensures FirstHit(a + b, hit) == if FirstHit(a, hit).Some? then FirstHit(a, hit) else FirstHit(b, hit)
    decreases |a|
  {
    if a == [] {
      assert a + b == b;
    } else {
      assert (a + b)[0] == a[0];
      assert (a + b)[1..] == a[1..] + b;
      FirstHitAppend(a[1..], b, hit);
    }
  }

  /** locate_symbol's search returns the first hit of the pre-order walk. */
  lemma {:induction false} SearchIsPreorderFirst(n: Node, ancestors: seq<Node>, src: string, symbol: string)
    ensures Search(n, src, symbol) == FirstHit(Walk(n, ancestors), HitOf(src, symbol))
    decreases n, 1
  {
    var w := Walk(n, ancestors);
    assert w == [Visit(n, ancestors)] + WalkSeq(n.children, ancestors + [n]);
    assert w[0] == Visit(n, ancestors);
    assert w[1..] == WalkSeq(n.children, ancestors + [n]);
    assert HitOf(src, symbol)(n) == Hit(n, src, symbol);
    SearchSeqIsPreorderFirst(n.children, ancestors + [n], src, symbol);
  }

  lemma {:induction false} SearchSeqIsPreorderFirst(ns: seq<Node>, ancestors: seq<Node>, src: string, symbol: string)
    ensures SearchSeq(ns, src, symbol) == FirstHit(WalkSeq(ns, ancestors), HitOf(src, symbol))
    decreases ns, 0
  {
    if ns != [] {
      SearchIsPreorderFirst(ns[0], ancestors, src, symbol);
      SearchSeqIsPreorderFirst(ns[1..], ancestors, src, symbol);
      FirstHitAppend(Walk(ns[0], ancestors), WalkSeq(ns[1..], ancestors), HitOf(src, symbol));
    }
  }

  /** locate_symbol: read the file, parse it, search the tree. */
  function LocateSymbol(fs: FS, path: string, lang: Lang, symbol: string, parse: ASTAnalyzer.Parser): (r: Option<Location>)
    ensures ReadFile(fs, path).None? ==> r.None?
  {
    match ReadFile(fs, path)
    case None => None
    case Some(src) =>
      match parse(lang, src)
      case None => None
      case Some(root) => Search(root, src, symbol)
  }

  // ---------------------------------------------------------------------
  // extract_signature, extract_definition

  /** extract_signature: a function without its body, a class without
      its body, any other node as it stands. */
  function ExtractSignature(n: Node, src: string): (r: string)
    ensures n.kind == "function_definition" ==> r == FunctionSignature(n, src)
    ensures IsClassKind(n.kind) ==> r == ClassSignature(n, src)
    ensures n.kind != "function_definition" && !IsClassKind(n.kind) ==> r == GetNodeText(src, n)
  {
    if n.kind == "function_definition" then FunctionSignature(n, src)
    else if IsClassKind(n.kind) then ClassSignature(n, src)
    else GetNodeText(src, n)
  }

  /** The text of the child a field names; empty when there is none. */
  function FieldText(n: Node, field: string, src: string): string
  {
    match ChildByField(n, field)
    case None => ""
    case Some(c) => GetNodeText(src, c)
  }

  /** The return type and a space, when there is one. */
  function ReturnTypePart(n: Node, src: string): string
  {
    if ChildByField(n, "type").Some? then FieldText(n, "type", src) + " " else ""
  }

  /** A space and the first base clause, when there is one. */
  function BasesPart(n: Node, src: string): string
  {
    match FirstChildOfKind(n, "base_class_clause")
    case None => ""
    case Some(i) => " " + GetNodeText(src, n.children[i])
  }

  function FunctionSignature(n: Node, src: string): string
  {
    ReturnTypePart(n, src) + FieldText(n, "declarator", src) + ";"
  }

  function ClassSignature(n: Node, src: string): string
  {
    (if n.kind == "class_specifier" then "class" else "struct") + " " + FieldText(n, "name", src) + BasesPart(n, src) + ";"
  }

  /** A function's signature starts with its return type and a space, when
      it has one, and ends with its declarator and ';'. */
  lemma FunctionSignatureShape(n: Node, src: string)
    ensures var r := FunctionSignature(n, src);
            var d := FieldText(n, "declarator", src);
            var t := ReturnTypePart(n, src);
            && r != [] && r[|r| - 1] == ';'
            && |t| + |d| + 1 == |r|
            && r[|t|..|r| - 1] == d
            && r[..|t|] == t
            && (ChildByField(n, "type").Some? ==> t == FieldText(n, "type", src) + " ")
  {
    var r := FunctionSignature(n, src);
    var d := FieldText(n, "declarator", src);
    var t := ReturnTypePart(n, src);
    assert r == t + d + ";";
    assert r[|t|..|r| - 1] == d;
    assert r[..|t|] == t;
  }

  /** A class's signature is its keyword, a space and its name, then its
      first base clause after a space when it has one, closed by ';'. */
  lemma ClassSignatureShape(n: Node, src: string)
    ensures var r := ClassSignature(n, src);
            var head := (if n.kind == "class_specifier" then "class" else "struct") + " " + FieldText(n, "name", src);
            && r != [] && r[|r| - 1] == ';'
            && |head| < |r| && r[..|head|] == head
            && (FirstChildOfKind(n, "base_class_clause").None? ==> r == head + ";")
            && (FirstChildOfKind(n, "base_class_clause").Some? ==>
                  r[|head|..] == " " + GetNodeText(src, n.children[FirstChildOfKind(n, "base_class_clause").value]) + ";")
  {
    var r := ClassSignature(n, src);
    var head := (if n.kind == "class_specifier" then "class" else "struct") + " " + FieldText(n, "name", src);
    var b := BasesPart(n, src);
    assert r == head + (b + ";");
    assert r[..|head|] == head;
    assert r[|head|..] == b + ";";
  }

  /** The definition record of extract_definition. */
  datatype Definition = Definition(
    name: string,
    kind: string,
    startLine: nat,
    endLine: nat,
    signature: string,
    fullCode: string,
    parentClass: string)

  /** extract_definition. `node` is the descendant of a fresh parse of the
      source for the location's byte range, None when that parse fails. The
      source's substr needs the range to lie in the source. */
  function ExtractDefinition(loc: Location, src: string, node: Option<Node>): (d: Definition)
    requires loc.startByte <= loc.endByte <= |src|
    ensures d.name == loc.name && d.kind == loc.kind
    ensures d.startLine == loc.startLine && d.endLine == loc.endLine
    ensures |d.fullCode| == loc.endByte - loc.startByte
    ensures forall i :: 0 <= i < |d.fullCode| ==> d.fullCode[i] == src[loc.startByte + i]
    ensures node.None? ==> d.signature == []
    ensures loc.kind == "method" && Contains(loc.name, "::") ==> d.parentClass == SplitQualified(loc.name).className
    ensures loc.kind != "method" ==> d.parentClass == []
  {
    Definition(loc.name, loc.kind, loc.startLine, loc.endLine,
               match node case None => "" case Some(n) => ExtractSignature(n, src),
               src[loc.startByte..loc.endByte], ParentClass(loc.kind, loc.name))
  }

  // ---------------------------------------------------------------------
  // analyze_dependencies

  /** A symbol a definition uses: its name, its category ("type",
      "function" or "qualified") and a description of the use. */
  datatype UsedSymbol = UsedSymbol(name: string, kind: string, context: string)

  /** The used symbol one node names, if any: a type identifier, the
      function of a call, or a qualified identifier. */
  function Candidate(n: Node, src: string): (r: Option<UsedSymbol>)
    ensures r.Some? ==> r.value.kind in {"type", "function", "qualified"}
    ensures n.kind !in {"type_identifier", "call_expression", "qualified_identifier"} ==> r.None?
  {
    if n.kind == "type_identifier" then Some(UsedSymbol(GetNodeText(src, n), "type", "variable type"))
    else if n.kind == "call_expression" then
      match ChildByField(n, "function")
      case None => None
      case Some(f) => Some(UsedSymbol(GetNodeText(src, f), "function", "function call"))
    else if n.kind == "qualified_identifier" then Some(UsedSymbol(GetNodeText(src, n), "qualified", "qualified access"))
    else None
  }

  /** The candidates of the visited nodes, in visiting order. */
  function Candidates(vs: seq<Visit>, src: string): (r: seq<UsedSymbol>)
    ensures |r| <= |vs|
  {
    if vs == [] then []
    else
      Candidates(vs[..|vs| - 1], src)
        + match Candidate(vs[|vs| - 1].node, src) case None => [] case Some(u) => [u]
  }

  /** The names in a list of used symbols. */
  function Names(us: seq<UsedSymbol>): (r: set<string>)
    ensures forall k :: 0 <= k < |us| ==> us[k].name in r
  {
    if us == [] then {} else Names(us[..|us| - 1]) + {us[|us| - 1].name}
  }

  /** The list kept by the seen-names set: a candidate is added only when
      no earlier one has its name. */
  function Dedup(cs: seq<UsedSymbol>): seq<UsedSymbol>
  {
    if cs == [] then []
    else
      var d := Dedup(cs[..|cs| - 1]);
      if cs[|cs| - 1].name in Names(d) then d else d + [cs[|cs| - 1]]
  }

  /** The position of the first candidate with a given name; the length
      of the list when there is none. */
  function FirstNamed(cs: seq<UsedSymbol>, name: string): (k: nat)
    ensures k <= |cs|
    ensures k < |cs| ==> cs[k].name == name
    ensures forall j :: 0 <= j < k ==> cs[j].name != name
    ensures k < |cs| <==> name in Names(cs)
  {
    if cs == [] then 0
    else
      var init := cs[..|cs| - 1];
      if name in Names(init) then
        var k := FirstNamed(init, name);
        assert cs[k] == init[k];
        assert forall j :: 0 <= j < k ==> cs[j] == init[j];
        k
      else
        assert forall j :: 0 <= j < |init| ==> cs[j] == init[j];
        if cs[|cs| - 1].name == name then |cs| - 1 else |cs|
  }

  /** One more candidate: added exactly when its name is new. */
  lemma DedupNext(cs: seq<UsedSymbol>, c: UsedSymbol)
    ensures Dedup(cs + [c]) == if c.name in Names(Dedup(cs)) then Dedup(cs) else Dedup(cs) + [c]
    ensures Names(cs + [c]) == Names(cs) + {c.name}
    ensures Names(Dedup(cs) + [c]) == Names(Dedup(cs)) + {c.name}
  {
    assert (cs + [c])[..|cs|] == cs;
    assert (Dedup(cs) + [c])[..|Dedup(cs)|] == Dedup(cs);
  }

  /** The deduplicated list has the names of all candidates. */
  lemma {:induction false} DedupNames(cs: seq<UsedSymbol>)
    ensures Names(Dedup(cs)) == Names(cs)
  {
    if cs != [] {
      var init := cs[..|cs| - 1];
      assert cs == init + [cs[|cs| - 1]];
      DedupNames(init);
      DedupNext(init, cs[|cs| - 1]);
    }
  }

  /** No name occurs twice in the deduplicated list. */
  lemma {:induction false} DedupDistinct(cs: seq<UsedSymbol>)
    ensures forall i, j :: 0 <= i < j < |Dedup(cs)| ==> Dedup(cs)[i].name != Dedup(cs)[j].name
  {
    if cs != [] {
      var init := cs[..|cs| - 1];
      var c := cs[|cs| - 1];
      assert cs == init + [c];
      DedupDistinct(init);
      DedupNext(init, c);
    }
  }

  /** A name already among the candidates keeps its first position when
      one more candidate is added. */
  lemma FirstNamedNext(cs: seq<UsedSymbol>, c: UsedSymbol, name: string)
    requires name in Names(cs)
    ensures FirstNamed(cs + [c], name) == FirstNamed(cs, name)
  {
    DedupNext(cs, c);
    assert (cs + [c])[..|cs|] == cs;
  }

  /** Each kept entry is the first candidate with its name: together with
      DedupNames and DedupDistinct, analyze_dependencies keeps exactly the
      first occurrence of each name, so the category of a name is the one
      it had first. */
  lemma {:induction false} DedupFirst(cs: seq<UsedSymbol>)
    ensures forall i :: 0 <= i < |Dedup(cs)| ==>
              FirstNamed(cs, Dedup(cs)[i].name) < |cs| && Dedup(cs)[i] == cs[FirstNamed(cs, Dedup(cs)[i].name)]
  {
    if cs != [] {
      var init := cs[..|cs| - 1];
      var c := cs[|cs| - 1];
      var d := Dedup(init);
      assert cs == init + [c];
      DedupFirst(init);
      DedupNames(init);
      DedupNext(init, c);
      var r := Dedup(cs);
      forall i | 0 <= i < |r|
        ensures FirstNamed(cs, r[i].name) < |cs| && r[i] == cs[FirstNamed(cs, r[i].name)]
      {
        if i < |d| {
          assert r[i] == d[i];
          FirstNamedNext(init, c, d[i].name);
          assert cs[FirstNamed(init, d[i].name)] == init[FirstNamed(init, d[i].name)];
        } else {
          assert r[i] == c && c.name !in Names(init);
          assert FirstNamed(cs, c.name) == |cs| - 1;
        }
      }
    }
  }

  /** The kept entries come in the order of their names' first
      occurrences. */
  lemma {:induction false} DedupOrdered(cs: seq<UsedSymbol>)
    ensures forall i, j :: 0 <= i < j < |Dedup(cs)| ==>
              FirstNamed(cs, Dedup(cs)[i].name) < FirstNamed(cs, Dedup(cs)[j].name)
  {
    if cs != [] {
      var init := cs[..|cs| - 1];
      var c := cs[|cs| - 1];
      assert cs == init + [c];
      DedupOrdered(init);
      forall i, j | 0 <= i < j < |Dedup(cs)|
        ensures FirstNamed(cs, Dedup(cs)[i].name) < FirstNamed(cs, Dedup(cs)[j].name)
      {
        if j < |Dedup(init)| {
          OrderedPair(init, c, i, j);
        } else {
          OrderedLast(init, c, i, j);
        }
      }
    }
  }

  /** Two entries kept before the last candidate keep their order. */
  lemma OrderedPair(init: seq<UsedSymbol>, c: UsedSymbol, i: nat, j: nat)
    requires i < j < |Dedup(init)|
    requires FirstNamed(init, Dedup(init)[i].name) < FirstNamed(init, Dedup(init)[j].name)
    ensures j < |Dedup(init + [c])|
    ensures FirstNamed(init + [c], Dedup(init + [c])[i].name) < FirstNamed(init + [c], Dedup(init + [c])[j].name)
  {
    var d := Dedup(init);
    DedupNames(init);
    DedupNext(init, c);
    assert Dedup(init + [c])[i] == d[i] && Dedup(init + [c])[j] == d[j];
    FirstNamedNext(init, c, d[i].name);
    FirstNamedNext(init, c, d[j].name);
  }

  /** The last candidate, when kept, comes after every earlier entry. */
  lemma OrderedLast(init: seq<UsedSymbol>, c: UsedSymbol, i: nat, j: nat)
    requires i < j < |Dedup(init + [c])| && j >= |Dedup(init)|
    ensures FirstNamed(init + [c], Dedup(init + [c])[i].name) < FirstNamed(init + [c], Dedup(init + [c])[j].name)
  {
    var d := Dedup(init);
    DedupNames(init);
    DedupNext(init, c);
    assert c.name !in Names(init) && Dedup(init + [c]) == d + [c];
    assert Dedup(init + [c])[i] == d[i] && Dedup(init + [c])[j] == c;
    FirstNamedNext(init, c, d[i].name);
    FirstNamedNew(init, c);
  }

  /** A new name is first found at the added position. */
  lemma FirstNamedNew(init: seq<UsedSymbol>, c: UsedSymbol)
    requires c.name !in Names(init)
    ensures FirstNamed(init + [c], c.name) == |init|
  {
    DedupNext(init, c);
    assert (init + [c])[..|init|] == init;
  }

  /** One more visited node adds its candidate, if any. */
  lemma CandidatesNext(vs: seq<Visit>, v: Visit, src: string)
    ensures Candidates(vs + [v], src)
            == Candidates(vs, src) + match Candidate(v.node, src) case None => [] case Some(u) => [u]
  {
    assert (vs + [v])[..|vs|] == vs;
  }

  /** One more visited node: its candidate is kept exactly when its name
      is new. */
  lemma UsedNext(vs: seq<Visit>, v: Visit, src: string)
    ensures var before := Dedup(Candidates(vs, src));
            Dedup(Candidates(vs + [v], src))
              == match Candidate(v.node, src)
                 case None => before
                 case Some(u) => if u.name in Names(before) then before else before + [u]
    ensures forall u :: Candidate(v.node, src) == Some(u) ==>
              Names(Dedup(Candidates(vs, src)) + [u]) == Names(Dedup(Candidates(vs, src))) + {u.name}
  {
    CandidatesNext(vs, v, src);
    var cs := Candidates(vs, src);
    match Candidate(v.node, src)
    case None =>
      assert Candidates(vs + [v], src) == cs;
    case Some(u) =>
      assert Candidates(vs + [v], src) == cs + [u];
      DedupNext(cs, u);
  }

  /** analyze_dependencies over the subtree of `node`, the descendant of
      a fresh parse for the definition's range (None when that parse
      fails): a pre-order walk that records each new name. */
  method AnalyzeDependencies(node: Option<Node>, src: string) returns (used: seq<UsedSymbol>)
    ensures node.None? ==> used == []
    ensures node.Some? ==> used == Dedup(Candidates(Walk(node.value, []), src))
  {
    used := [];
    if node.None? {
      return;
    }
    var root := node.value;
    var seen: set<string> := {};
    var pending := [Visit(root, [])];
    ghost var visited: seq<Visit> := [];
    WalkAllSingle(Visit(root, []));
    while pending != []
      invariant visited + WalkAll(pending) == Walk(root, [])
      invariant used == Dedup(Candidates(visited, src))
      invariant seen == Names(used)
      decreases |WalkAll(pending)|
    {
      var current := pending[0];
      WalkNext(Walk(root, []), visited, pending);
      var next := ChildVisits(current) + pending[1..];
      var found := Candidate(current.node, src);
      UsedNext(visited, current, src);
      if found.Some? {
        if found.value.name !in seen {
          used := used + [found.value];
          seen := seen + {found.value.name};
        }
      }
      visited := visited + [current];
      pending := next;
    }
    assert visited == Walk(root, []);
  }

  // ---------------------------------------------------------------------
  // read_context_lines

  function Clamp(x: nat, n: nat): nat
  {
    if x > n then n else x
  }

  /** The lines numbered max(1, center - size) through center + size
      (1-based) that exist. */
  function Window(lines: seq<string>, center: int, size: int): seq<string>
  {
    var lo := Max(1, center - size);
    var hi := center + size;
    if hi < lo then [] else lines[Clamp(lo - 1, |lines|)..Clamp(hi, |lines|)]
  }

  /** The window holds, in order, the existing lines whose 1-based numbers
      lie between max(1, center - size) and center + size: at most
      2 * size + 1 of them. */
  lemma WindowLines(lines: seq<string>, center: int, size: int)
    ensures var lo := Max(1, center - size);
            var w := Window(lines, center, size);
            && |w| == (if center + size < lo || |lines| < lo then 0 else Min(center + size, |lines|) - lo + 1)
            && (forall i :: 0 <= i < |w| ==> w[i] == lines[lo - 1 + i] && lo + i <= center + size)
            && (size >= 0 ==> |w| <= 2 * size + 1)
  {
  }

  /** The window over one more line. */
  lemma WindowStep(lines: seq<string>, i: nat, center: int, size: int)
    requires i < |lines|
    ensures Window(lines[..i + 1], center, size)
            == Window(lines[..i], center, size)
               + if Max(1, center - size) <= i + 1 <= center + size then [lines[i]] else []
  {
    var lo := Max(1, center - size);
    var hi := center + size;
    if lo <= hi {
      var a, b := lines[..i], lines[..i + 1];
      assert |a| == i && |b| == i + 1;
      if lo <= i + 1 <= hi {
        assert Window(b, center, size) == b[lo - 1..i + 1];
        assert Window(a, center, size) == a[lo - 1..i];
        SliceSnoc(lines, lo - 1, i);
      } else if i + 1 < lo {
        assert Window(b, center, size) == b[i + 1..i + 1];
        assert Window(a, center, size) == a[i..i];
      } else {
        assert Window(b, center, size) == b[lo - 1..hi];
        assert Window(a, center, size) == a[lo - 1..hi];
        SliceOfPrefix(lines, i + 1, lo - 1, hi);
        SliceOfPrefix(lines, i, lo - 1, hi);
      }
    }
  }

  lemma SliceSnoc<T>(s: seq<T>, lo: nat, i: nat)
    requires lo <= i < |s|
    ensures s[..i + 1][lo..i + 1] == s[..i][lo..i] + [s[i]]
  {
  }

  lemma SliceOfPrefix<T>(s: seq<T>, n: nat, lo: nat, hi: nat)
    requires lo <= hi <= n <= |s|
    ensures s[..n][lo..hi] == s[lo..hi]
  {
  }

  /** Past the last line of the window the rest of the text adds nothing. */
  lemma WindowDone(lines: seq<string>, j: nat, center: int, size: int)
    requires center + size <= j <= |lines|
    ensures Window(lines[..j], center, size) == Window(lines, center, size)
  {
    var lo := Max(1, center - size);
    var hi := center + size;
    if lo <= hi {
      assert lines[..j][lo - 1..hi] == lines[lo - 1..hi];
    }
  }

  /** read_context_lines: the getline loop over the file that keeps the
      lines in the window and stops after it; an unreadable file gives no
      lines. */
  method ReadContextLines(file: Option<string>, center: int, size: int) returns (result: seq<string>)
    ensures file.None? ==> result == []
    ensures file.Some? ==> result == Window(Lines(file.value), center, size)
  {
    result := [];
    if file.None? {
      return;
    }
    var lines := Lines(file.value);
    var startLine := Max(1, center - size);
    var endLine := center + size;
    var currentLine := 1;
    var i := 0;
    while i < |lines|
      invariant 0 <= i <= |lines| && currentLine == i + 1
      invariant result == Window(lines[..i], center, size)
    {
      WindowStep(lines, i, center, size);
      if currentLine >= startLine && currentLine <= endLine {
        result := result + [lines[i]];
      }
      if currentLine > endLine {
        WindowDone(lines, i + 1, center, size);
        return;
      }
      currentLine := currentLine + 1;
      i := i + 1;
    }
    assert lines[..i] == lines;
  }

  // ---------------------------------------------------------------------
  // Caps

  /** The first `limit` elements, or all of them when there are fewer; none
      when the limit is not positive. */
  function Take<T>(s: seq<T>, limit: int): (r: seq<T>)
    ensures |r| == if limit <= 0 then 0 else Min(limit, |s|)
    ensures r == s[..|r|]
  {
    if limit <= 0 then [] else if limit < |s| then s[..limit] else s
  }

  /** Once the first part fills the cap, what follows is cut off. */
  lemma TakeFull<T>(a: seq<T>, b: seq<T>, limit: int)
    requires |a| >= limit
    ensures Take(a + b, limit) == Take(a, limit)
  {
    if limit > 0 {
      assert (a + b)[..limit] == a[..limit];
    }
  }

  /** Output of the dependencies: the loop of execute that emits the first
      min(max_dependencies, found) of them. */
  method LimitDependencies(deps: seq<Definition>, maxDeps: int) returns (out: seq<Definition>)
    ensures out == Take(deps, maxDeps)
  {
    var count := Min(maxDeps, |deps|);
    out := [];
    var i := 0;
    while i < count
      invariant 0 <= i && (count > 0 ==> i <= count) && (count <= 0 ==> i == 0)
      invariant out == deps[..i]
    {
      out := out + [deps[i]];
      i := i + 1;
    }
    assert count > 0 ==> deps[..count] == Take(deps, maxDeps);
  }

  /** enrich_context's resolution: each used type, in order, looked up in
      the current file and then, when external resolution is on and there
      are search paths, in the headers under them; the names it finds are
      the dependencies. `local` and `external` stand for the two lookups. */
  function Resolve(used: seq<UsedSymbol>, local: string -> Option<Definition>,
                   external: string -> Option<Definition>, resolveExternal: bool, searchPaths: seq<string>): (r: seq<Definition>)
    ensures |r| <= |used|
  {
    if used == [] then []
    else
      var u := used[|used| - 1];
      var def := if u.kind != "type" then None
                 else if local(u.name).None? && resolveExternal && searchPaths != [] then external(u.name)
                 else local(u.name);
      Resolve(used[..|used| - 1], local, external, resolveExternal, searchPaths)
        + match def case None => [] case Some(d) => [d]
  }

  /** The number of used types. */
  function TypesIn(used: seq<UsedSymbol>): nat
  {
    if used == [] then 0 else TypesIn(used[..|used| - 1]) + if used[|used| - 1].kind == "type" then 1 else 0
  }

  /** Only types are resolved: there is at most one dependency per used
      type, and exactly one when the current file defines each of them; an
      external definition is used only when external resolution is on. */
  lemma {:induction false} ResolveCounts(used: seq<UsedSymbol>, local: string -> Option<Definition>,
                                         external: string -> Option<Definition>, resolveExternal: bool, searchPaths: seq<string>)
    ensures |Resolve(used, local, external, resolveExternal, searchPaths)| <= TypesIn(used)
    ensures (forall k :: 0 <= k < |used| && used[k].kind == "type" ==> local(used[k].name).Some?) ==>
              |Resolve(used, local, external, resolveExternal, searchPaths)| == TypesIn(used)
    ensures !resolveExternal ==> Resolve(used, local, external, resolveExternal, searchPaths)
                                 == Resolve(used, local, _ => None, false, [])
  {
    if used != [] {
      ResolveCounts(used[..|used| - 1], local, external, resolveExternal, searchPaths);
    }
  }

  // ---------------------------------------------------------------------
  // find_usage_examples

  /** A call of the symbol found in some file: where, the window of lines
      around it, and the function it occurs in. */
  datatype UsageExample = UsageExample(filepath: string, line: nat, context: seq<string>, parentScope: string)

  /** A call expression whose function text contains the symbol. */
  predicate IsUsage(n: Node, src: string, symbol: string)
  {
    n.kind == "call_expression"
    && match ChildByField(n, "function")
       case None => false
       case Some(f) => Contains(GetNodeText(src, f), symbol)
  }

  /** The scope of a usage: the declarator, cut at '(', of the nearest
      enclosing function definition (the ancestors end with the parent);
      empty when there is none or it has no declarator. */
  function ParentScope(ancestors: seq<Node>, src: string): string
  {
    if ancestors == [] then ""
    else
      var p := ancestors[|ancestors| - 1];
      if p.kind == "function_definition" then
        match ChildByField(p, "declarator")
        case None => ""
        case Some(d) => CutAtParen(GetNodeText(src, d))
      else ParentScope(ancestors[..|ancestors| - 1], src)
  }

  /** The walk up the parents of a usage to its enclosing function. */
  method FindParentScope(ancestors: seq<Node>, src: string) returns (scope: string)
    ensures scope == ParentScope(ancestors, src)
  {
    scope := "";
    var i := |ancestors|;
    assert ancestors[..i] == ancestors;
    while i > 0
      invariant 0 <= i <= |ancestors|
      invariant ParentScope(ancestors, src) == ParentScope(ancestors[..i], src)
    {
      var parent := ancestors[i - 1];
      assert ancestors[..i][..i - 1] == ancestors[..i - 1];
      if parent.kind == "function_definition" {
        var decl := ChildByField(parent, "declarator");
        if decl.Some? {
          scope := CutAtParen(GetNodeText(src, decl.value));
        }
        return;
      }
      i := i - 1;
    }
  }

  /** The example a visited node gives, if it is a usage. */
  function UsageAt(v: Visit, path: string, src: string, symbol: string, contextLines: int): Option<UsageExample>
  {
    if IsUsage(v.node, src, symbol) then
      var line := v.node.start.row + 1;
      Some(UsageExample(path, line, Window(Lines(src), line, contextLines), ParentScope(v.ancestors, src)))
    else None
  }

  /** The examples of the visited nodes, in visiting order. */
  function UsagesIn(vs: seq<Visit>, path: string, src: string, symbol: string, contextLines: int): (r: seq<UsageExample>)
    ensures |r| <= |vs|
  {
    if vs == [] then []
    else
      UsagesIn(vs[..|vs| - 1], path, src, symbol, contextLines)
        + Found(UsageAt(vs[|vs| - 1], path, src, symbol, contextLines))
  }

  /** An optional example as a sequence of at most one. */
  function Found(o: Option<UsageExample>): seq<UsageExample>
  {
    match o
    case None => []
    case Some(e) => [e]
  }

  lemma {:induction false} UsagesInAppend(a: seq<Visit>, b: seq<Visit>, path: string, src: string, symbol: string, contextLines: int)
    ensures UsagesIn(a + b, path, src, symbol, contextLines)
            == UsagesIn(a, path, src, symbol, contextLines) + UsagesIn(b, path, src, symbol, contextLines)
    decreases |b|
  {
    if b == [] {
      assert a + b == a;
    } else {
      var bi := b[..|b| - 1];
      assert (a + b)[..|a + b| - 1] == a + bi;
      assert (a + b)[|a + b| - 1] == b[|b| - 1];
      UsagesInAppend(a, bi, path, src, symbol, contextLines);
    }
  }

  /** The examples one file offers: none when it cannot be read, has an
      unsupported extension or does not parse. */
  function FileUsages(fs: FS, path: string, parse: ASTAnalyzer.Parser, symbol: string, contextLines: int): seq<UsageExample>
  {
    match ReadFile(fs, path)
    case None => []
    case Some(src) =>
      var lang := DetectFromExtension(path);
      if lang == UNKNOWN then []
      else match parse(lang, src)
        case None => []
        case Some(root) => UsagesIn(Walk(root, []), path, src, symbol, contextLines)
  }

  /** FileUsages as a function of the path. */
  function FileUsagesOf(fs: FS, parse: ASTAnalyzer.Parser, symbol: string, contextLines: int): string -> seq<UsageExample>
  {
    path => FileUsages(fs, path, parse, symbol, contextLines)
  }

  /** What each file offers, concatenated in file order. */
  function Concat(files: seq<string>, each: string -> seq<UsageExample>): seq<UsageExample>
  {
    if files == [] then [] else Concat(files[..|files| - 1], each) + each(files[|files| - 1])
  }

  /** The examples of the files, in file order. */
  function UsagesOfFiles(fs: FS, files: seq<string>, parse: ASTAnalyzer.Parser, symbol: string, contextLines: int): seq<UsageExample>
  {
    Concat(files, FileUsagesOf(fs, parse, symbol, contextLines))
  }

  lemma {:induction false} ConcatAppend(a: seq<string>, b: seq<string>, each: string -> seq<UsageExample>)
    ensures Concat(a + b, each) == Concat(a, each) + Concat(b, each)
    decreases |b|
  {
    if b == [] {
      assert a + b == a;
    } else {
      var bi := b[..|b| - 1];
      assert (a + b)[..|a + b| - 1] == a + bi;
      assert (a + b)[|a + b| - 1] == b[|b| - 1];
      ConcatAppend(a, bi, each);
    }
  }

  /** One more visited node adds its example, if it is a usage. */
  lemma UsagesNext(vs: seq<Visit>, v: Visit, path: string, src: string, symbol: string, contextLines: int)
    ensures UsagesIn(vs + [v], path, src, symbol, contextLines)
            == UsagesIn(vs, path, src, symbol, contextLines) + Found(UsageAt(v, path, src, symbol, contextLines))
  {
    assert (vs + [v])[..|vs|] == vs;
  }

  /** A walk that has ended, or stopped with the cap reached, has found
      all the examples the cap lets through. */
  lemma WalkStopped(before: seq<UsageExample>, visited: seq<Visit>, pending: seq<Visit>, whole: seq<Visit>,
                    path: string, src: string, symbol: string, contextLines: int, maxExamples: int)
    requires visited + WalkAll(pending) == whole
    requires pending == [] || |Take(before + UsagesIn(visited, path, src, symbol, contextLines), maxExamples)| >= maxExamples
    ensures Take(before + UsagesIn(visited, path, src, symbol, contextLines), maxExamples)
            == Take(before + UsagesIn(whole, path, src, symbol, contextLines), maxExamples)
  {
    var done := UsagesIn(visited, path, src, symbol, contextLines);
    var rest := UsagesIn(WalkAll(pending), path, src, symbol, contextLines);
    UsagesInAppend(visited, WalkAll(pending), path, src, symbol, contextLines);
    if pending == [] {
      assert WalkAll(pending) == [];
      assert rest == [];
    }
    TakeStopped(before, done, rest, maxExamples);
  }

  /** A cap that is reached, or a sequence that ends, leaves the rest out. */
  lemma TakeStopped<T>(before: seq<T>, done: seq<T>, rest: seq<T>, limit: int)
    requires rest == [] || |Take(before + done, limit)| >= limit
    ensures Take(before + done, limit) == Take(before + (done + rest), limit)
  {
    assert before + (done + rest) == (before + done) + rest;
    if rest == [] {
      assert (before + done) + rest == before + done;
    } else {
      TakeFull(before + done, rest, limit);
    }
  }

  /** The example a visited node gives, if it is a usage. */
  method ExampleAt(v: Visit, path: string, src: string, symbol: string, contextLines: int)
    returns (found: seq<UsageExample>)
    ensures found == Found(UsageAt(v, path, src, symbol, contextLines))
  {
    found := [];
    if IsUsage(v.node, src, symbol) {
      var line := v.node.start.row + 1;
      var context := ReadContextLines(Some(src), line, contextLines);
      var scope := FindParentScope(v.ancestors, src);
      found := [UsageExample(path, line, context, scope)];
    }
  }

  /** Below the cap, one more found item (or none) is kept. */
  lemma TakeGrows<T>(before: seq<T>, done: seq<T>, found: seq<T>, limit: int)
    requires |Take(before + done, limit)| < limit && |found| <= 1
    ensures Take(before + done, limit) + found == Take(before + (done + found), limit)
  {
    assert before + (done + found) == (before + done) + found;
  }

  /** The traversal of one file, which stops as soon as the cap is
      reached. */
  method ExamplesInFile(root: Node, path: string, src: string, symbol: string, contextLines: int,
                        maxExamples: int, before: seq<UsageExample>) returns (examples: seq<UsageExample>)
    requires |before| < maxExamples
    ensures examples == Take(before + UsagesIn(Walk(root, []), path, src, symbol, contextLines), maxExamples)
  {
    examples := before;
    var pending := [Visit(root, [])];
    ghost var visited: seq<Visit> := [];
    WalkAllSingle(Visit(root, []));
    while pending != [] && |examples| < maxExamples
      invariant visited + WalkAll(pending) == Walk(root, [])
      invariant examples == Take(before + UsagesIn(visited, path, src, symbol, contextLines), maxExamples)
      decreases |WalkAll(pending)|
    {
      var current := pending[0];
      WalkNext(Walk(root, []), visited, pending);
      var next := ChildVisits(current) + pending[1..];
      UsagesNext(visited, current, path, src, symbol, contextLines);
      var found := ExampleAt(current, path, src, symbol, contextLines);
      TakeGrows(before, UsagesIn(visited, path, src, symbol, contextLines), found, maxExamples);
      examples := examples + found;
      visited := visited + [current];
      pending := next;
    }
    WalkStopped(before, visited, pending, Walk(root, []), path, src, symbol, contextLines, maxExamples);
  }

  /** One file of find_usage_examples: read, detect the language, parse,
      walk; a file that fails any step is skipped. */
  method ExamplesOfFile(fs: FS, path: string, parse: ASTAnalyzer.Parser, symbol: string,
                        contextLines: int, maxExamples: int, before: seq<UsageExample>) returns (examples: seq<UsageExample>)
    requires |before| < maxExamples
    ensures examples == Take(before + FileUsagesOf(fs, parse, symbol, contextLines)(path), maxExamples)
  {
    assert FileUsagesOf(fs, parse, symbol, contextLines)(path) == FileUsages(fs, path, parse, symbol, contextLines);
    var contents := ReadFile(fs, path);
    var lang := DetectFromExtension(path);
    if contents.Some? && lang != UNKNOWN {
      var tree := parse(lang, contents.value);
      if tree.Some? {
        examples := ExamplesInFile(tree.value, path, contents.value, symbol, contextLines, maxExamples, before);
        return;
      }
    }
    assert FileUsages(fs, path, parse, symbol, contextLines) == [];
    assert before + [] == before;
    examples := before;
  }

  /** The usages of the first f + 1 files. */
  lemma ConcatNext(files: seq<string>, f: nat, each: string -> seq<UsageExample>)
    requires f < |files|
    ensures Concat(files[..f + 1], each) == Concat(files[..f], each) + each(files[f])
  {
    assert files[..f + 1][..f] == files[..f];
  }

  /** A search over the files that has ended, or stopped with the cap
      reached, has found all the examples the cap lets through. */
  lemma FilesStopped(files: seq<string>, f: nat, each: string -> seq<UsageExample>, maxExamples: int)
    requires f <= |files|
    requires f == |files| || |Take(Concat(files[..f], each), maxExamples)| >= maxExamples
    ensures Take(Concat(files[..f], each), maxExamples) == Take(Concat(files, each), maxExamples)
  {
    var done, rest := Concat(files[..f], each), Concat(files[f..], each);
    ConcatAppend(files[..f], files[f..], each);
    assert files[..f] + files[f..] == files;
    if f == |files| {
      assert files[f..] == [];
      assert rest == [];
    }
    TakeRest(done, rest, maxExamples);
  }

  /** Once the cap is reached, or when nothing follows, the rest is cut off. */
  lemma TakeRest<T>(done: seq<T>, rest: seq<T>, limit: int)
    requires rest == [] || |Take(done, limit)| >= limit
    ensures Take(done, limit) == Take(done + rest, limit)
  {
    if rest == [] {
      assert done + rest == done;
    } else {
      TakeFull(done, rest, limit);
    }
  }

  /** find_usage_examples over the resolved files: each readable file of a
      supported language that parses is walked in pre-order for calls of
      the symbol, and the search stops once `maxExamples` are found. The
      result is the first `maxExamples` usages of all the files. */
  method FindUsageExamples(fs: FS, files: seq<string>, parse: ASTAnalyzer.Parser, symbol: string,
                           contextLines: int, maxExamples: int) returns (examples: seq<UsageExample>)
    ensures examples == Take(UsagesOfFiles(fs, files, parse, symbol, contextLines), maxExamples)
    ensures maxExamples >= 0 ==> |examples| <= maxExamples
  {
    examples := [];
    ghost var each := FileUsagesOf(fs, parse, symbol, contextLines);
    var f := 0;
    while f < |files|
      invariant 0 <= f <= |files|
      invariant examples == Take(Concat(files[..f], each), maxExamples)
    {
      if |examples| >= maxExamples {
        break;
      }
      ConcatNext(files, f, each);
      examples := ExamplesOfFile(fs, files[f], parse, symbol, contextLines, maxExamples, examples);
      f := f + 1;
    }
    FilesStopped(files, f, each, maxExamples);
  }
}
