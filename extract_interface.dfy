/** The extraction half of the extract_interface tool: function
    signatures without bodies, the backward walks over earlier siblings
    that find a member's access specifier and a definition's decorators,
    class interfaces (name, bases, methods and fields with the private
    filter) and the per-file interface built from three queries. */
module ExtractInterface {
  import opened Text
  import opened Syntax
  import opened Language
  import opened FileSystem
  import QueryEngine
  import ASTAnalyzer

  // ---------------------------------------------------------------------
  // Positions in a tree

  /** The node reached from `n` by following the child indices of `path`,
      if every index is in range. */
  function NodeAtPath(n: Node, path: seq<nat>): Option<Node>
  {
    if path == [] then Some(n)
    else match NodeAtPath(n, path[..|path| - 1])
      case None => None
      case Some(parent) =>
        var i := path[|path| - 1];
        if i < |parent.children| then Some(parent.children[i]) else None
  }

  /** A node together with its siblings: the node is `siblings[index]`.
      This is what ts_node_prev_sibling can see of a node. */
  datatype Site = Site(siblings: seq<Node>, index: nat)

  predicate ValidSite(s: Site)
  {
    s.index < |s.siblings|
  }

  function NodeOf(s: Site): Node
    requires ValidSite(s)
  {
    s.siblings[s.index]
  }

  /** The site of the node at `path` below `root`; the root is alone
      among its siblings. */
  function Resolve(root: Node, path: seq<nat>): (r: Option<Site>)
    ensures r.Some? ==> ValidSite(r.value) && NodeAtPath(root, path) == Some(NodeOf(r.value))
    ensures r.None? ==> NodeAtPath(root, path).None?
  {
    if path == [] then Some(Site([root], 0))
    else match NodeAtPath(root, path[..|path| - 1])
      case None => None
      case Some(parent) =>
        var i := path[|path| - 1];
        if i < |parent.children| then Some(Site(parent.children, i)) else None
  }

  /** ts_node_parent: the site of the parent of the node at `path`. */
  function ParentSite(root: Node, path: seq<nat>): (r: Option<Site>)
    ensures path == [] ==> r.None?
    ensures path != [] ==> r == Resolve(root, path[..|path| - 1])
  {
    if path == [] then None else Resolve(root, path[..|path| - 1])
  }

  // ---------------------------------------------------------------------
  // get_signature_text

  const CppBodyKinds: set<string> := {"compound_statement"}
  const PyBodyKinds: set<string> := {"block", ":"}
  const PyKeptKinds: set<string> := {"def", "async", "identifier", "parameters", "type"}

  /** The first child whose kind is in `kinds`. */
  function FirstIn(cs: seq<Node>, kinds: set<string>): (r: Option<nat>)
    ensures r.Some? ==> r.value < |cs| && cs[r.value].kind in kinds
    ensures r.Some? ==> forall j :: 0 <= j < r.value ==> cs[j].kind !in kinds
    ensures r.None? ==> forall j :: 0 <= j < |cs| ==> cs[j].kind !in kinds
  {
    if cs == [] then None
    else if cs[0].kind in kinds then Some(0)
    else match FirstIn(cs[1..], kinds)
      case None => None
      case Some(k) => Some(k + 1)
  }

  /** The C++ signature from child `i` on: each child's text followed
      by a space unless it is the last child or "(", and ";" in place
      of the first compound_statement, after which nothing is kept. */
  function CppSignatureFrom(cs: seq<Node>, i: nat, src: string): string
    requires i <= |cs|
    decreases |cs| - i
  {
    if i == |cs| then ""
    else if cs[i].kind in CppBodyKinds then ";"
    else CppPiece(cs[i], i < |cs| - 1, src) + CppSignatureFrom(cs, i + 1, src)
  }

  /** One C++ child's contribution: its text, and a space when more
      children follow and it is not "(". */
  function CppPiece(n: Node, more: bool, src: string): string
  {
    NodeText(src, n) + (if more && n.kind != "(" then " " else "")
  }

  /** One Python child's contribution: the text of a kept child, with a
      space unless it is the parameters; nothing for other kinds. */
  function PyPiece(n: Node, src: string): string
  {
    if n.kind in PyKeptKinds then NodeText(src, n) + (if n.kind != "parameters" then " " else "") else ""
  }

  /** The Python signature from child `i` on: only def, async, the name,
      the parameters and the return type are kept, each followed by a
      space except the parameters; ":" is added at the first block or
      ":" child, after which nothing is kept. */
  function PySignatureFrom(cs: seq<Node>, i: nat, src: string): string
    requires i <= |cs|
    decreases |cs| - i
  {
    if i == |cs| then ""
    else if cs[i].kind in PyBodyKinds then PyPiece(cs[i], src) + ":"
    else PyPiece(cs[i], src) + PySignatureFrom(cs, i + 1, src)
  }

  /** get_signature_text: by language, or the whole node text for a
      language the tool does not know. */
  function SignatureText(n: Node, src: string, lang: Lang): string
  {
    match lang
    case CPP => CppSignatureFrom(n.children, 0, src)
    case PYTHON => PySignatureFrom(n.children, 0, src)
    case UNKNOWN => NodeText(src, n)
  }

  /** Two child lists that agree up to the body child at `k` give the
      same C++ signature. */
  lemma {:induction false} CppSignatureAgree(cs: seq<Node>, ds: seq<Node>, k: nat, i: nat, src: string)
    requires k < |cs| && k < |ds| && cs[k].kind in CppBodyKinds && i <= k
    requires cs[i..k + 1] == ds[i..k + 1]
    ensures CppSignatureFrom(cs, i, src) == CppSignatureFrom(ds, i, src)
    decreases k - i
  {
    assert cs[i] == cs[i..k + 1][0] == ds[i..k + 1][0] == ds[i];
    if cs[i].kind !in CppBodyKinds {
      assert cs[i + 1..k + 1] == cs[i..k + 1][1..] && ds[i + 1..k + 1] == ds[i..k + 1][1..];
      CppSignatureAgree(cs, ds, k, i + 1, src);
    }
  }

  /** The signature ends with ";" when a body child follows. */
  lemma {:induction false} CppSignatureEnds(cs: seq<Node>, k: nat, i: nat, src: string)
    requires k < |cs| && cs[k].kind in CppBodyKinds && i <= k
    ensures EndsWith(CppSignatureFrom(cs, i, src), ';')
    decreases k - i
  {
    if cs[i].kind !in CppBodyKinds {
      CppSignatureEnds(cs, k, i + 1, src);
      LastOfAppend(CppPiece(cs[i], i < |cs| - 1, src), CppSignatureFrom(cs, i + 1, src), ';');
    }
  }

  lemma AppendAssoc(a: string, b: string, c: string)
    ensures a + (b + c) == (a + b) + c
  {
  }

  predicate EndsWith(s: string, c: char)
  {
    s != [] && s[|s| - 1] == c
  }

  lemma LastOfAppend(a: string, b: string, c: char)
    requires EndsWith(b, c)
    ensures EndsWith(a + b, c)
  {
    var ab := a + b;
    assert ab[|ab| - 1] == b[|b| - 1];
  }

  /** The body is dropped: a C++ signature ends with the ";" that
      replaces the first compound_statement, and the children from the
      body on do not affect it. */
  lemma CppBodyDropped(cs: seq<Node>, src: string, rest: seq<Node>)
    requires FirstIn(cs, CppBodyKinds).Some?
    ensures var k := FirstIn(cs, CppBodyKinds).value;
            var sig := CppSignatureFrom(cs, 0, src);
            && EndsWith(sig, ';')
            && sig == CppSignatureFrom(cs[..k + 1] + rest, 0, src)
  {
    var k := FirstIn(cs, CppBodyKinds).value;
    var other := cs[..k + 1] + rest;
    assert other[..k + 1] == cs[..k + 1];
    CppSignatureAgree(cs, other, k, 0, src);
    CppSignatureEnds(cs, k, 0, src);
  }

  /** Two child lists that agree up to the body child at `k` give the
      same Python signature. */
  lemma {:induction false} PySignatureAgree(cs: seq<Node>, ds: seq<Node>, k: nat, i: nat, src: string)
    requires k < |cs| && k < |ds| && cs[k].kind in PyBodyKinds && i <= k
    requires cs[i..k + 1] == ds[i..k + 1]
    ensures PySignatureFrom(cs, i, src) == PySignatureFrom(ds, i, src)
    decreases k - i
  {
    assert cs[i] == cs[i..k + 1][0] == ds[i..k + 1][0] == ds[i];
    if cs[i].kind !in PyBodyKinds {
      assert cs[i + 1..k + 1] == cs[i..k + 1][1..] && ds[i + 1..k + 1] == ds[i..k + 1][1..];
      PySignatureAgree(cs, ds, k, i + 1, src);
    }
  }

  /** The signature ends with ":" when a body child follows. */
  lemma {:induction false} PySignatureEnds(cs: seq<Node>, k: nat, i: nat, src: string)
    requires k < |cs| && cs[k].kind in PyBodyKinds && i <= k
    ensures EndsWith(PySignatureFrom(cs, i, src), ':')
    decreases k - i
  {
    if cs[i].kind !in PyBodyKinds {
      PySignatureEnds(cs, k, i + 1, src);
      LastOfAppend(PyPiece(cs[i], src), PySignatureFrom(cs, i + 1, src), ':');
    } else {
      LastOfAppend(PyPiece(cs[i], src), ":", ':');
    }
  }

  /** The body is dropped: a Python signature ends with the ":" added at
      the first block or ":" child, and the children from there on do
      not affect it. */
  lemma PyBodyDropped(cs: seq<Node>, src: string, rest: seq<Node>)
    requires FirstIn(cs, PyBodyKinds).Some?
    ensures var k := FirstIn(cs, PyBodyKinds).value;
            var sig := PySignatureFrom(cs, 0, src);
            && EndsWith(sig, ':')
            && sig == PySignatureFrom(cs[..k + 1] + rest, 0, src)
  {
    var k := FirstIn(cs, PyBodyKinds).value;
    var other := cs[..k + 1] + rest;
    assert other[..k + 1] == cs[..k + 1];
    PySignatureAgree(cs, other, k, 0, src);
    PySignatureEnds(cs, k, 0, src);
  }

  lemma {:induction false} PySignatureSkips(cs: seq<Node>, i: nat, src: string)
    requires i <= |cs|
    requires forall j :: i <= j < |cs| ==> cs[j].kind !in PyKeptKinds
    ensures PySignatureFrom(cs, i, src) == "" || PySignatureFrom(cs, i, src) == ":"
    decreases |cs| - i
  {
    if i < |cs| && cs[i].kind !in PyBodyKinds {
      PySignatureSkips(cs, i + 1, src);
    }
  }

  /** Children of other kinds contribute nothing: a Python definition
      none of whose children is def, async, a name, parameters or a
      return type has the signature "" or ":". */
  lemma PySignatureOnlyKept(cs: seq<Node>, src: string)
    requires forall j :: 0 <= j < |cs| ==> cs[j].kind !in PyKeptKinds
    ensures PySignatureFrom(cs, 0, src) == "" || PySignatureFrom(cs, 0, src) == ":"
  {
    PySignatureSkips(cs, 0, src);
  }

  /** The C++ loop over the children, with its early exit at the body. */
  method CppSignature(cs: seq<Node>, src: string) returns (sig: string)
    ensures sig == CppSignatureFrom(cs, 0, src)
  {
    sig := "";
    var i := 0;
    while i < |cs|
      invariant 0 <= i <= |cs|
      invariant sig + CppSignatureFrom(cs, i, src) == CppSignatureFrom(cs, 0, src)
    {
      var child := cs[i];
      if child.kind == "compound_statement" {
        sig := sig + ";";
        return;
      }
      var piece := NodeText(src, child);
      if i < |cs| - 1 && child.kind != "(" {
        piece := piece + " ";
      }
      assert piece == CppPiece(child, i < |cs| - 1, src);
      AppendAssoc(sig, piece, CppSignatureFrom(cs, i + 1, src));
      sig := sig + piece;
      i := i + 1;
    }
    assert sig + "" == sig;
  }

  /** The Python loop over the children, with its early exit at the body. */
  method PySignature(cs: seq<Node>, src: string) returns (sig: string)
    ensures sig == PySignatureFrom(cs, 0, src)
  {
    sig := "";
    var i := 0;
    while i < |cs|
      invariant 0 <= i <= |cs|
      invariant sig + PySignatureFrom(cs, i, src) == PySignatureFrom(cs, 0, src)
    {
      var child := cs[i];
      var piece := "";
      if child.kind in PyKeptKinds {
        piece := NodeText(src, child);
        if child.kind != "parameters" {
          piece := piece + " ";
        }
      }
      assert piece == PyPiece(child, src);
      if child.kind in PyBodyKinds {
        AppendAssoc(sig, piece, ":");
        sig := sig + piece + ":";
        return;
      }
      AppendAssoc(sig, piece, PySignatureFrom(cs, i + 1, src));
      sig := sig + piece;
      i := i + 1;
    }
    assert sig + "" == sig;
  }

  method GetSignatureText(n: Node, src: string, lang: Lang) returns (sig: string)
    ensures sig == SignatureText(n, src, lang)
  {
    if lang == CPP {
      sig := CppSignature(n.children, src);
    } else if lang == PYTHON {
      sig := PySignature(n.children, src);
    } else {
      sig := NodeText(src, n);
    }
  }

  // ---------------------------------------------------------------------
  // get_preceding_comment and extract_decorators

  /** The previous sibling's text when it is a comment, else "". */
  function PrecedingComment(s: Site, src: string): (r: string)
    requires ValidSite(s)
    ensures r != [] ==> 0 < s.index && s.siblings[s.index - 1].kind == "comment"
                        && r == NodeText(src, s.siblings[s.index - 1])
  {
    if 0 < s.index && s.siblings[s.index - 1].kind == "comment" then NodeText(src, s.siblings[s.index - 1])
    else ""
  }

  /** The decorators found walking back from the sibling before
      position `j`: decorators are kept, comments skipped, and any other
      sibling ends the walk; the result is in source order. */
  function DecoratorsBefore(cs: seq<Node>, j: nat, src: string): seq<string>
    requires j <= |cs|
  {
    if j == 0 then []
    else if cs[j - 1].kind == "decorator" then DecoratorsBefore(cs, j - 1, src) + [NodeText(src, cs[j - 1])]
    else if cs[j - 1].kind == "comment" then DecoratorsBefore(cs, j - 1, src)
    else []
  }

  const DecoratorRunKinds: set<string> := {"decorator", "comment"}

  /** Where the run of decorators and comments just before position `j`
      begins. */
  function RunStart(cs: seq<Node>, j: nat): (s: nat)
    requires j <= |cs|
    ensures s <= j
  {
    if j == 0 || cs[j - 1].kind !in DecoratorRunKinds then j else RunStart(cs, j - 1)
  }

  /** The run is maximal: every sibling in it is a decorator or a
      comment, and the one before it, if any, is neither. */
  lemma {:induction false} RunStartIsRun(cs: seq<Node>, j: nat)
    requires j <= |cs|
    ensures forall k :: RunStart(cs, j) <= k < j ==> cs[k].kind in DecoratorRunKinds
    ensures RunStart(cs, j) == 0 || cs[RunStart(cs, j) - 1].kind !in DecoratorRunKinds
  {
    if j > 0 && cs[j - 1].kind in DecoratorRunKinds {
      RunStartIsRun(cs, j - 1);
    }
  }

  /** The texts of the decorator nodes among `ns`, in order. */
  function DecoratorTexts(ns: seq<Node>, src: string): seq<string>
  {
    if ns == [] then []
    else DecoratorTexts(ns[..|ns| - 1], src)
         + if ns[|ns| - 1].kind == "decorator" then [NodeText(src, ns[|ns| - 1])] else []
  }

  /** The walk's result is exactly the decorators of the unbroken run of
      decorator and comment siblings right before the node, in source
      order. */
  lemma {:induction false} DecoratorsAreRun(cs: seq<Node>, j: nat, src: string)
    requires j <= |cs|
    ensures DecoratorsBefore(cs, j, src) == DecoratorTexts(cs[RunStart(cs, j)..j], src)
  {
    if j > 0 && cs[j - 1].kind in DecoratorRunKinds {
      DecoratorsAreRun(cs, j - 1, src);
      var s := RunStart(cs, j - 1);
      assert RunStart(cs, j) == s;
      var run := cs[s..j];
      assert run[..|run| - 1] == cs[s..j - 1] && run[|run| - 1] == cs[j - 1];
    } else {
      assert cs[j..j] == [];
    }
  }

  /** The loop that walks back over the earlier siblings, prepending
      each decorator. */
  method ExtractDecorators(s: Site, src: string) returns (ds: seq<string>)
    requires ValidSite(s)
    ensures ds == DecoratorsBefore(s.siblings, s.index, src)
  {
    var cs := s.siblings;
    ds := [];
    var k: nat := s.index;
    while k > 0
      invariant k <= s.index
      invariant DecoratorsBefore(cs, k, src) + ds == DecoratorsBefore(cs, s.index, src)
    {
      var prev := cs[k - 1];
      if prev.kind == "decorator" {
        ds := [NodeText(src, prev)] + ds;
      } else if prev.kind != "comment" {
        assert DecoratorsBefore(cs, k, src) == [];
        return;
      }
      k := k - 1;
    }
  }

  // ---------------------------------------------------------------------
  // get_access_specifier

  const AccessKinds: set<string> := {"public", "private", "protected"}
  const MemberKinds: set<string> := {"function_definition", "field_declaration"}

  /** An access_specifier node whose first child is public, private or
      protected. */
  predicate Labelled(n: Node)
  {
    n.kind == "access_specifier" && n.children != [] && n.children[0].kind in AccessKinds
  }

  /** get_access_specifier as written: walking back from position `j`,
      the first labelled access specifier gives the access, but an
      earlier member ends the walk, and the default is "public". */
  function AccessAsWritten(cs: seq<Node>, j: nat): (r: string)
    requires j <= |cs|
    ensures r in AccessKinds
  {
    if j == 0 then "public"
    else if Labelled(cs[j - 1]) then cs[j - 1].children[0].kind
    else if cs[j - 1].kind in MemberKinds then "public"
    else AccessAsWritten(cs, j - 1)
  }

  /** The access of the member at position `j`: the label of the nearest
      earlier labelled access specifier, whatever members lie between,
      and "public" when there is none. */
  function Access(cs: seq<Node>, j: nat): (r: string)
    requires j <= |cs|
    ensures r in AccessKinds
  {
    if j == 0 then "public"
    else if Labelled(cs[j - 1]) then cs[j - 1].children[0].kind
    else Access(cs, j - 1)
  }

  /** The access is the label of the nearest earlier labelled specifier,
      or "public" when no earlier sibling is one. */
  lemma {:induction false} AccessNearest(cs: seq<Node>, j: nat)
    requires j <= |cs|
    ensures (exists k :: 0 <= k < j && Labelled(cs[k]) && cs[k].children[0].kind == Access(cs, j)
                          && forall m :: k < m < j ==> !Labelled(cs[m]))
            || (Access(cs, j) == "public" && forall k :: 0 <= k < j ==> !Labelled(cs[k]))
  {
    if j > 0 && !Labelled(cs[j - 1]) {
      AccessNearest(cs, j - 1);
    }
  }

  /** The two walks agree whenever no member lies between the node and
      its nearest labelled specifier. */
  lemma {:induction false} AccessAgrees(cs: seq<Node>, j: nat)
    requires j <= |cs|
    requires forall m :: 0 <= m < j && cs[m].kind in MemberKinds ==> exists k :: m < k < j && Labelled(cs[k])
    ensures AccessAsWritten(cs, j) == Access(cs, j)
  {
    if j > 0 && !Labelled(cs[j - 1]) {
      if cs[j - 1].kind in MemberKinds {
        assert false;
      }
      forall m | 0 <= m < j - 1 && cs[m].kind in MemberKinds
        ensures exists k :: m < k < j - 1 && Labelled(cs[k])
      {
        var k :| m < k < j && Labelled(cs[k]);
      }
      AccessAgrees(cs, j - 1);
    }
  }

  /** `class A { private: int a; int b; };` — the children of the class
      body, with their byte ranges in that text. */
  const ExampleClassSource := "class A { private: int a; int b; };"
  const ExamplePrivateLabel := Node("access_specifier", 10, 17, Point(0, 10), Point(0, 17),
                                    [Node("private", 10, 17, Point(0, 10), Point(0, 17), [], map[])], map[])
  const ExampleFieldA := Node("field_declaration", 19, 25, Point(0, 19), Point(0, 25), [], map[])
  const ExampleFieldB := Node("field_declaration", 26, 32, Point(0, 26), Point(0, 32), [], map[])
  const ExampleClassBody := [
    Node("{", 8, 9, Point(0, 8), Point(0, 9), [], map[]),
    ExamplePrivateLabel,
    Node(":", 17, 18, Point(0, 17), Point(0, 18), [], map[]),
    ExampleFieldA,
    ExampleFieldB,
    Node("}", 33, 34, Point(0, 33), Point(0, 34), [], map[])]

  /** The walk as written stops at `int a;` and reports `int b;` as
      public, so it is listed even when private members are excluded;
      the nearest specifier makes it private. */
  lemma SecondPrivateMemberPublic()
    ensures AccessAsWritten(ExampleClassBody, 3) == "private"
    ensures AccessAsWritten(ExampleClassBody, 4) == "public"
    ensures Access(ExampleClassBody, 4) == "private"
  {
    assert Labelled(ExampleClassBody[1]);
    assert Access(ExampleClassBody, 2) == "private";
    assert !Labelled(ExampleClassBody[2]) && ExampleClassBody[2].kind !in MemberKinds;
    assert ExampleClassBody[3].kind in MemberKinds && !Labelled(ExampleClassBody[3]);
  }

  /** The backward walk over the earlier siblings: a labelled specifier
      gives the access, an earlier member ends the walk. */
  method GetAccessSpecifier(cs: seq<Node>, j: nat) returns (r: string)
    requires j <= |cs|
    ensures r == AccessAsWritten(cs, j)
    ensures r in AccessKinds
  {
    var k: nat := j;
    while k > 0
      invariant k <= j
      invariant AccessAsWritten(cs, k) == AccessAsWritten(cs, j)
    {
      var prev := cs[k - 1];
      if prev.kind == "access_specifier" && |prev.children| > 0 {
        var spec := prev.children[0].kind;
        if spec == "public" || spec == "private" || spec == "protected" {
          return spec;
        }
      }
      if prev.kind == "function_definition" || prev.kind == "field_declaration" {
        break;
      }
      k := k - 1;
    }
    r := "public";
  }

  // ---------------------------------------------------------------------
  // extract_function_signature and extract_class_interface

  /** A function or method as the interface lists it; `comment` and
      `access` are absent when the tool leaves the key out, and an empty
      `decorators` stands for the absent key. */
  datatype FunctionSig = FunctionSig(
    signature: string,
    line: nat,
    column: nat,
    comment: Option<string>,
    decorators: seq<string>,
    access: Option<string>)

  datatype Field = Field(declaration: string, line: nat, access: Option<string>)

  datatype ClassInterface = ClassInterface(
    name: string,
    line: nat,
    comment: Option<string>,
    baseClasses: seq<string>,
    methods: seq<FunctionSig>,
    members: seq<Field>,
    decorators: seq<string>)

  datatype Namespace = Namespace(name: string, line: nat)

  datatype Interface = Interface(
    classes: seq<ClassInterface>,
    functions: seq<FunctionSig>,
    namespaces: seq<Namespace>,
    language: Lang)

  /** The comment key: present when comments are wanted and the previous
      sibling is a non-empty comment. */
  function CommentOf(s: Site, src: string, includeComments: bool): (r: Option<string>)
    requires ValidSite(s)
    ensures r.Some? ==> includeComments && r.value != [] && r.value == PrecedingComment(s, src)
  {
    var c := PrecedingComment(s, src);
    if includeComments && c != [] then Some(c) else None
  }

  /** extract_function_signature: the signature, the 1-based line and
      the 0-based column of the node, its comment, and for Python its
      decorators. */
  function FunctionEntry(s: Site, src: string, includeComments: bool, lang: Lang): (r: FunctionSig)
    requires ValidSite(s)
    ensures r.line == NodeOf(s).start.row + 1 && r.column == NodeOf(s).start.column
    ensures r.decorators != [] ==> lang == PYTHON
    ensures r.access.None?
  {
    var n := NodeOf(s);
    FunctionSig(SignatureText(n, src, lang), n.start.row + 1, n.start.column,
                CommentOf(s, src, includeComments),
                if lang == PYTHON then DecoratorsBefore(s.siblings, s.index, src) else [],
                None)
  }

  method ExtractFunctionSignature(s: Site, src: string, includeComments: bool, lang: Lang)
    returns (f: FunctionSig)
    requires ValidSite(s)
    ensures f == FunctionEntry(s, src, includeComments, lang)
  {
    var n := s.siblings[s.index];
    var signature := GetSignatureText(n, src, lang);
    var comment: Option<string> := None;
    if includeComments {
      var c := PrecedingComment(s, src);
      if c != [] {
        comment := Some(c);
      }
    }
    var decorators: seq<string> := [];
    if lang == PYTHON {
      decorators := ExtractDecorators(s, src);
    }
    f := FunctionSig(signature, n.start.row + 1, n.start.column, comment, decorators, None);
  }

  /** The access key: set unless the access is empty or "unknown". */
  function AccessField(a: string): Option<string>
  {
    if a != "" && a != "unknown" then Some(a) else None
  }

  /** The characters popped from the end of a field declaration: ';' and
      what std::isspace accepts in the "C" locale. */
  const DeclTrailing: set<char> := {';', ' ', '\t', '\n', 11 as char, 12 as char, '\r'}

  /** The pop_back loop: the declaration without its trailing run of ';'
      and whitespace. */
  method TrimDeclaration(s: string) returns (r: string)
    ensures |r| <= |s| && r == s[..|r|]
    ensures r == [] || r[|r| - 1] !in DeclTrailing
    ensures forall i :: |r| <= i < |s| ==> s[i] in DeclTrailing
    ensures r == TrimRight(s, DeclTrailing)
  {
    r := s;
    while r != [] && r[|r| - 1] in DeclTrailing
      invariant |r| <= |s| && r == s[..|r|]
      invariant forall i :: |r| <= i < |s| ==> s[i] in DeclTrailing
      invariant TrimRight(r, DeclTrailing) == TrimRight(s, DeclTrailing)
    {
      r := r[..|r| - 1];
    }
  }

  function MethodAt(cs: seq<Node>, k: nat, src: string, includeComments: bool, lang: Lang): FunctionSig
    requires k < |cs|
  {
    FunctionEntry(Site(cs, k), src, includeComments, lang).(access := AccessField(AccessAsWritten(cs, k)))
  }

  function FieldAt(cs: seq<Node>, k: nat, src: string): Field
    requires k < |cs|
  {
    Field(TrimRight(NodeText(src, cs[k]), DeclTrailing), cs[k].start.row + 1, AccessField(AccessAsWritten(cs, k)))
  }

  /** What each body child would contribute as a method: the entry of a
      function_definition, nothing for the other kinds. */
  function MethodSlots(cs: seq<Node>, src: string, includeComments: bool, lang: Lang): (r: seq<Option<FunctionSig>>)
    ensures |r| == |cs|
  {
    seq(|cs|, k requires 0 <= k < |cs| =>
      if cs[k].kind == "function_definition" then Some(MethodAt(cs, k, src, includeComments, lang)) else None)
  }

  /** What each body child would contribute as a field. */
  function FieldSlots(cs: seq<Node>, src: string): (r: seq<Option<Field>>)
    ensures |r| == |cs|
  {
    seq(|cs|, k requires 0 <= k < |cs| =>
      if cs[k].kind == "field_declaration" then Some(FieldAt(cs, k, src)) else None)
  }

  /** The entries among the first `k` slots that are listed: all of
      them when private members are included, otherwise those whose
      access is not "private". */
  function ListedMethods(slots: seq<Option<FunctionSig>>, k: nat, includePrivate: bool): (r: seq<FunctionSig>)
    requires k <= |slots|
    ensures |r| <= k
  {
    if k == 0 then []
    else ListedMethods(slots, k - 1, includePrivate)
         + if slots[k - 1].Some? && (includePrivate || slots[k - 1].value.access != Some("private"))
           then [slots[k - 1].value] else []
  }

  function ListedFields(slots: seq<Option<Field>>, k: nat, includePrivate: bool): (r: seq<Field>)
    requires k <= |slots|
    ensures |r| <= k
  {
    if k == 0 then []
    else ListedFields(slots, k - 1, includePrivate)
         + if slots[k - 1].Some? && (includePrivate || slots[k - 1].value.access != Some("private"))
           then [slots[k - 1].value] else []
  }

  /** The methods among the first `k` body children, in body order. */
  function MethodsIn(cs: seq<Node>, k: nat, src: string, includePrivate: bool, includeComments: bool, lang: Lang)
    : seq<FunctionSig>
    requires k <= |cs|
  {
    ListedMethods(MethodSlots(cs, src, includeComments, lang), k, includePrivate)
  }

  /** The fields among the first `k` body children, in body order. */
  function FieldsIn(cs: seq<Node>, k: nat, src: string, includePrivate: bool): seq<Field>
    requires k <= |cs|
  {
    ListedFields(FieldSlots(cs, src), k, includePrivate)
  }

  /** The entries whose access is not private, in order. */
  function PublicMethods(ms: seq<FunctionSig>): (r: seq<FunctionSig>)
    ensures |r| <= |ms|
  {
    if ms == [] then []
    else PublicMethods(ms[..|ms| - 1])
         + if ms[|ms| - 1].access != Some("private") then [ms[|ms| - 1]] else []
  }

  function PublicFields(fs: seq<Field>): (r: seq<Field>)
    ensures |r| <= |fs|
  {
    if fs == [] then []
    else PublicFields(fs[..|fs| - 1])
         + if fs[|fs| - 1].access != Some("private") then [fs[|fs| - 1]] else []
  }

  /** The filters keep exactly the entries that are not private. */
  lemma {:induction false} PublicMethodsExact(ms: seq<FunctionSig>)
    ensures forall m :: m in PublicMethods(ms) <==> m in ms && m.access != Some("private")
  {
    if ms != [] {
      var init := ms[..|ms| - 1];
      PublicMethodsExact(init);
      assert ms == init + [ms[|ms| - 1]];
    }
  }

  lemma {:induction false} PublicFieldsExact(fs: seq<Field>)
    ensures forall f :: f in PublicFields(fs) <==> f in fs && f.access != Some("private")
  {
    if fs != [] {
      var init := fs[..|fs| - 1];
      PublicFieldsExact(init);
      assert fs == init + [fs[|fs| - 1]];
    }
  }

  /** The private filter: without private members the methods are those
      listed with them, less the private ones, in the same order. */
  lemma {:induction false} PrivateMethodsFiltered(slots: seq<Option<FunctionSig>>, k: nat)
    requires k <= |slots|
    ensures ListedMethods(slots, k, false) == PublicMethods(ListedMethods(slots, k, true))
  {
    if k > 0 {
      PrivateMethodsFiltered(slots, k - 1);
      var init := ListedMethods(slots, k - 1, true);
      var tail: seq<FunctionSig> := if slots[k - 1].Some? then [slots[k - 1].value] else [];
      assert ListedMethods(slots, k, true) == init + tail;
      PublicMethodsSnoc(init, tail);
      if slots[k - 1].Some? {
        assert tail[..0] == [];
      }
    }
  }

  lemma PublicMethodsSnoc(ms: seq<FunctionSig>, tail: seq<FunctionSig>)
    requires |tail| <= 1
    ensures PublicMethods(ms + tail) == PublicMethods(ms) + PublicMethods(tail)
  {
    if tail == [] {
      assert ms + tail == ms;
    } else {
      assert (ms + tail)[..|ms|] == ms;
      assert tail[..0] == [];
    }
  }

  /** The same for the fields. */
  lemma {:induction false} PrivateFieldsFiltered(slots: seq<Option<Field>>, k: nat)
    requires k <= |slots|
    ensures ListedFields(slots, k, false) == PublicFields(ListedFields(slots, k, true))
  {
    if k > 0 {
      PrivateFieldsFiltered(slots, k - 1);
      var init := ListedFields(slots, k - 1, true);
      var tail: seq<Field> := if slots[k - 1].Some? then [slots[k - 1].value] else [];
      assert ListedFields(slots, k, true) == init + tail;
      PublicFieldsSnoc(init, tail);
      if slots[k - 1].Some? {
        assert tail[..0] == [];
      }
    }
  }

  lemma PublicFieldsSnoc(fs: seq<Field>, tail: seq<Field>)
    requires |tail| <= 1
    ensures PublicFields(fs + tail) == PublicFields(fs) + PublicFields(tail)
  {
    if tail == [] {
      assert fs + tail == fs;
    } else {
      assert (fs + tail)[..|fs|] == fs;
      assert tail[..0] == [];
    }
  }

  /** Every listed entry carries the access of its body child, so the
      filter on the entry is the filter on the access specifier. */
  lemma SlotsCarryAccess(cs: seq<Node>, k: nat, src: string, includeComments: bool, lang: Lang)
    requires k < |cs|
    ensures MethodSlots(cs, src, includeComments, lang)[k].Some? ==>
              MethodSlots(cs, src, includeComments, lang)[k].value.access == Some(AccessAsWritten(cs, k))
    ensures FieldSlots(cs, src)[k].Some? ==> FieldSlots(cs, src)[k].value.access == Some(AccessAsWritten(cs, k))
  {
  }

  /** One body child: the method or field it contributes, if any. */
  method BodyEntry(cs: seq<Node>, i: nat, src: string, includePrivate: bool, includeComments: bool, lang: Lang)
    returns (ms: seq<FunctionSig>, fs: seq<Field>)
    requires i < |cs|
    ensures MethodsIn(cs, i + 1, src, includePrivate, includeComments, lang)
         == MethodsIn(cs, i, src, includePrivate, includeComments, lang) + ms
    ensures FieldsIn(cs, i + 1, src, includePrivate) == FieldsIn(cs, i, src, includePrivate) + fs
  {
    ms, fs := [], [];
    var member := cs[i];
    var access := GetAccessSpecifier(cs, i);
    if !includePrivate && access == "private" {
      return;
    }
    if member.kind == "function_definition" {
      var m := MethodEntry(cs, i, access, src, includeComments, lang);
      ms := [m];
    } else if member.kind == "field_declaration" {
      var decl := TrimDeclaration(NodeText(src, member));
      fs := [Field(decl, member.start.row + 1, AccessField(access))];
    }
  }

  method MethodEntry(cs: seq<Node>, i: nat, access: string, src: string, includeComments: bool, lang: Lang)
    returns (m: FunctionSig)
    requires i < |cs| && access == AccessAsWritten(cs, i)
    ensures m == MethodAt(cs, i, src, includeComments, lang)
  {
    m := ExtractFunctionSignature(Site(cs, i), src, includeComments, lang);
    if access != "" && access != "unknown" {
      m := m.(access := Some(access));
    }
  }

  /** The loop over the class body. */
  method ClassBody(cs: seq<Node>, src: string, includePrivate: bool, includeComments: bool, lang: Lang)
    returns (methods: seq<FunctionSig>, fields: seq<Field>)
    ensures methods == MethodsIn(cs, |cs|, src, includePrivate, includeComments, lang)
    ensures fields == FieldsIn(cs, |cs|, src, includePrivate)
  {
    methods := [];
    fields := [];
    var i := 0;
    while i < |cs|
      invariant 0 <= i <= |cs|
      invariant methods == MethodsIn(cs, i, src, includePrivate, includeComments, lang)
      invariant fields == FieldsIn(cs, i, src, includePrivate)
    {
      var ms, fs := BodyEntry(cs, i, src, includePrivate, includeComments, lang);
      methods := methods + ms;
      fields := fields + fs;
      i := i + 1;
    }
  }

  const ClassNameKinds: set<string> := {"type_identifier", "identifier"}

  /** The text of the first type_identifier or identifier child, or "". */
  function ClassNameOf(n: Node, src: string): string
  {
    match FirstIn(n.children, ClassNameKinds)
    case None => ""
    case Some(k) => NodeText(src, n.children[k])
  }

  /** The texts of the type_identifier nodes among `ns`, in order. */
  function TypeNames(ns: seq<Node>, src: string): (r: seq<string>)
    ensures |r| <= |ns|
  {
    if ns == [] then []
    else TypeNames(ns[..|ns| - 1], src)
         + if ns[|ns| - 1].kind == "type_identifier" then [NodeText(src, ns[|ns| - 1])] else []
  }

  /** The C++ bases: the type_identifier children of the first
      base_class_clause. */
  function BaseClassesOf(n: Node, src: string, lang: Lang): seq<string>
  {
    if lang != CPP then []
    else match FirstIn(n.children, {"base_class_clause"})
      case None => []
      case Some(k) => TypeNames(n.children[k].children, src)
  }

  function BodyChildren(n: Node): seq<Node>
  {
    match ChildByField(n, "body")
    case None => []
    case Some(body) => body.children
  }

  /** extract_class_interface. */
  function ClassEntry(s: Site, src: string, includePrivate: bool, includeComments: bool, lang: Lang)
    : (r: ClassInterface)
    requires ValidSite(s)
    ensures r.line == NodeOf(s).start.row + 1
    ensures r.baseClasses != [] ==> lang == CPP
    ensures r.decorators != [] ==> lang == PYTHON
  {
    var n := NodeOf(s);
    var cs := BodyChildren(n);
    ClassInterface(
      ClassNameOf(n, src), n.start.row + 1, CommentOf(s, src, includeComments), BaseClassesOf(n, src, lang),
      MethodsIn(cs, |cs|, src, includePrivate, includeComments, lang), FieldsIn(cs, |cs|, src, includePrivate),
      if lang == PYTHON then DecoratorsBefore(s.siblings, s.index, src) else [])
  }

  /** The loop over the base_class_clause's children. */
  method CollectTypeNames(ns: seq<Node>, src: string) returns (names: seq<string>)
    ensures names == TypeNames(ns, src)
  {
    names := [];
    var j := 0;
    while j < |ns|
      invariant 0 <= j <= |ns|
      invariant names == TypeNames(ns[..j], src)
    {
      assert ns[..j + 1][..j] == ns[..j];
      if ns[j].kind == "type_identifier" {
        names := names + [NodeText(src, ns[j])];
      }
      j := j + 1;
    }
    assert ns[..j] == ns;
  }

  /** The loop looking for the class name. */
  method FindClassName(n: Node, src: string) returns (name: string)
    ensures name == ClassNameOf(n, src)
  {
    name := "";
    var i := 0;
    while i < |n.children|
      invariant 0 <= i <= |n.children|
      invariant forall j :: 0 <= j < i ==> n.children[j].kind !in ClassNameKinds
    {
      if n.children[i].kind in ClassNameKinds {
        name := NodeText(src, n.children[i]);
        return;
      }
      i := i + 1;
    }
  }

  /** The loop looking for the base_class_clause, C++ only. */
  method FindBaseClasses(n: Node, src: string, lang: Lang) returns (bases: seq<string>)
    ensures bases == BaseClassesOf(n, src, lang)
  {
    bases := [];
    if lang != CPP {
      return;
    }
    var k := 0;
    while k < |n.children|
      invariant 0 <= k <= |n.children|
      invariant forall j :: 0 <= j < k ==> n.children[j].kind != "base_class_clause"
    {
      if n.children[k].kind == "base_class_clause" {
        assert FirstIn(n.children, {"base_class_clause"}) == Some(k);
        bases := CollectTypeNames(n.children[k].children, src);
        return;
      }
      k := k + 1;
    }
  }

  method ExtractClassInterface(s: Site, src: string, includePrivate: bool, includeComments: bool, lang: Lang)
    returns (c: ClassInterface)
    requires ValidSite(s)
    ensures c == ClassEntry(s, src, includePrivate, includeComments, lang)
  {
    var n := s.siblings[s.index];
    var name := FindClassName(n, src);
    var comment := CommentOf(s, src, includeComments);
    var bases := FindBaseClasses(n, src, lang);
    var methods, fields := ClassBody(BodyChildren(n), src, includePrivate, includeComments, lang);
    var decorators: seq<string> := [];
    if lang == PYTHON {
      decorators := ExtractDecorators(s, src);
    }
    c := ClassInterface(name, n.start.row + 1, comment, bases, methods, fields, decorators);
  }

  // ---------------------------------------------------------------------
  // extract_from_file

  /** The query matching done by tree-sitter: for a query type, a
      language and a tree, the positions of the captured nodes, in match
      order. */
  type Finder = (QueryEngine.QueryType, Lang, Node) -> seq<seq<nat>>

  /** The node extract_function_signature receives as written: the
      captured node itself. The Python function query captures the
      function's name, not the function. */
  function FunctionSiteAsWritten(root: Node, path: seq<nat>): Option<Site>
  {
    Resolve(root, path)
  }

  /** The function definition for a capture: for Python the parent of
      the captured name, as the class query's capture is treated. */
  function FunctionSite(root: Node, path: seq<nat>, lang: Lang): Option<Site>
  {
    if lang == PYTHON then ParentSite(root, path) else Resolve(root, path)
  }

  /** The functions listed for the captures, in capture order; a
      capture that does not name a node of the tree contributes none. */
  function FunctionsOf(root: Node, paths: seq<seq<nat>>, src: string, includeComments: bool, lang: Lang)
    : (r: seq<FunctionSig>)
    ensures |r| <= |paths|
  {
    if paths == [] then []
    else FunctionsOf(root, paths[..|paths| - 1], src, includeComments, lang)
         + match FunctionSiteAsWritten(root, paths[|paths| - 1])
           case None => []
           case Some(s) => [FunctionEntry(s, src, includeComments, lang)]
  }

  /** The classes listed for the captured class names: each from the
      name's parent. */
  function ClassesOf(root: Node, paths: seq<seq<nat>>, src: string, includePrivate: bool, includeComments: bool, lang: Lang)
    : (r: seq<ClassInterface>)
    ensures |r| <= |paths|
  {
    if paths == [] then []
    else ClassesOf(root, paths[..|paths| - 1], src, includePrivate, includeComments, lang)
         + match ParentSite(root, paths[|paths| - 1])
           case None => []
           case Some(s) => [ClassEntry(s, src, includePrivate, includeComments, lang)]
  }

  /** The namespaces for the captured names: the match's text and its
      line as the query engine reports it (0-based). */
  function NamespacesOf(root: Node, paths: seq<seq<nat>>, src: string): (r: seq<Namespace>)
    ensures |r| <= |paths|
  {
    if paths == [] then []
    else NamespacesOf(root, paths[..|paths| - 1], src)
         + match Resolve(root, paths[|paths| - 1])
           case None => []
           case Some(s) =>
             var m := QueryEngine.CaptureResult(QueryEngine.Capture("namespace_name", NodeOf(s)), src);
             [Namespace(m.text, m.line)]
  }

  function OpenFailed(path: string): string { "Failed to open file: " + path }
  function ParseFailed(path: string): string { "Failed to parse file: " + path }

  /** extract_from_file: the read and parse errors, then the functions,
      the classes and, for C++ only, the namespaces. */
  function FileInterface(fs: FS, path: string, includePrivate: bool, includeComments: bool, lang: Lang,
                         parse: ASTAnalyzer.Parser, find: Finder): (r: Result<Interface>)
    ensures ReadFile(fs, path).None? <==> r == Err(OpenFailed(path))
    ensures r.Ok? ==> r.value.language == lang && (lang != CPP ==> r.value.namespaces == [])
  {
    match ReadFile(fs, path)
    case None => Err(OpenFailed(path))
    case Some(src) =>
      match parse(lang, src)
      case None => Err(ParseFailed(path))
      case Some(root) =>
        Ok(Interface(
          ClassesOf(root, find(QueryEngine.CLASSES, lang, root), src, includePrivate, includeComments, lang),
          FunctionsOf(root, find(QueryEngine.FUNCTIONS, lang, root), src, includeComments, lang),
          if lang == CPP then NamespacesOf(root, find(QueryEngine.NAMESPACES, lang, root), src) else [],
          lang))
  }

  lemma FunctionsOfNext(root: Node, paths: seq<seq<nat>>, i: nat, src: string, includeComments: bool, lang: Lang)
    requires i < |paths|
    ensures FunctionsOf(root, paths[..i + 1], src, includeComments, lang)
         == FunctionsOf(root, paths[..i], src, includeComments, lang)
            + match FunctionSiteAsWritten(root, paths[i])
              case None => []
              case Some(s) => [FunctionEntry(s, src, includeComments, lang)]
  {
    assert paths[..i + 1][..i] == paths[..i];
  }

  lemma ClassesOfNext(root: Node, paths: seq<seq<nat>>, i: nat, src: string, includePrivate: bool, includeComments: bool, lang: Lang)
    requires i < |paths|
    ensures ClassesOf(root, paths[..i + 1], src, includePrivate, includeComments, lang)
         == ClassesOf(root, paths[..i], src, includePrivate, includeComments, lang)
            + match ParentSite(root, paths[i])
              case None => []
              case Some(s) => [ClassEntry(s, src, includePrivate, includeComments, lang)]
  {
    assert paths[..i + 1][..i] == paths[..i];
  }

  method ListFunctions(root: Node, paths: seq<seq<nat>>, src: string, includeComments: bool, lang: Lang)
    returns (functions: seq<FunctionSig>)
    ensures functions == FunctionsOf(root, paths, src, includeComments, lang)
  {
    functions := [];
    var i := 0;
    while i < |paths|
      invariant 0 <= i <= |paths|
      invariant functions == FunctionsOf(root, paths[..i], src, includeComments, lang)
    {
      FunctionsOfNext(root, paths, i, src, includeComments, lang);
      var site := FunctionSiteAsWritten(root, paths[i]);
      if site.Some? {
        var f := ExtractFunctionSignature(site.value, src, includeComments, lang);
        functions := functions + [f];
      }
      i := i + 1;
    }
    assert paths[..i] == paths;
  }

  method ListClasses(root: Node, paths: seq<seq<nat>>, src: string, includePrivate: bool, includeComments: bool, lang: Lang)
    returns (classes: seq<ClassInterface>)
    ensures classes == ClassesOf(root, paths, src, includePrivate, includeComments, lang)
  {
    classes := [];
    var i := 0;
    while i < |paths|
      invariant 0 <= i <= |paths|
      invariant classes == ClassesOf(root, paths[..i], src, includePrivate, includeComments, lang)
    {
      ClassesOfNext(root, paths, i, src, includePrivate, includeComments, lang);
      var site := ParentSite(root, paths[i]);
      if site.Some? {
        var c := ExtractClassInterface(site.value, src, includePrivate, includeComments, lang);
        classes := classes + [c];
      }
      i := i + 1;
    }
    assert paths[..i] == paths;
  }

  method ListNamespaces(root: Node, paths: seq<seq<nat>>, src: string) returns (namespaces: seq<Namespace>)
    ensures namespaces == NamespacesOf(root, paths, src)
  {
    namespaces := [];
    var i := 0;
    while i < |paths|
      invariant 0 <= i <= |paths|
      invariant namespaces == NamespacesOf(root, paths[..i], src)
    {
      assert paths[..i + 1][..i] == paths[..i];
      var site := Resolve(root, paths[i]);
      if site.Some? {
        var m := QueryEngine.CaptureResult(QueryEngine.Capture("namespace_name", NodeOf(site.value)), src);
        namespaces := namespaces + [Namespace(m.text, m.line)];
      }
      i := i + 1;
    }
    assert paths[..i] == paths;
  }

  method ExtractFromFile(fs: FS, path: string, includePrivate: bool, includeComments: bool, lang: Lang,
                         parse: ASTAnalyzer.Parser, find: Finder) returns (r: Result<Interface>)
    ensures r == FileInterface(fs, path, includePrivate, includeComments, lang, parse, find)
  {
    var contents := ReadFile(fs, path);
    if contents.None? {
      return Err(OpenFailed(path));
    }
    var src := contents.value;
    var tree := parse(lang, src);
    if tree.None? {
      return Err(ParseFailed(path));
    }
    var root := tree.value;
    var functions := ListFunctions(root, find(QueryEngine.FUNCTIONS, lang, root), src, includeComments, lang);
    var classes := ListClasses(root, find(QueryEngine.CLASSES, lang, root), src, includePrivate, includeComments, lang);
    var namespaces: seq<Namespace> := [];
    if lang == CPP {
      namespaces := ListNamespaces(root, find(QueryEngine.NAMESPACES, lang, root), src);
    }
    r := Ok(Interface(classes, functions, namespaces, lang));
  }

  /** `def foo(x):\n    pass\n` — a module holding one function. */
  const ExamplePySource := "def foo(x):\n    pass\n"
  const ExampleDef := Node("function_definition", 0, 20, Point(0, 0), Point(1, 8), [
      Node("def", 0, 3, Point(0, 0), Point(0, 3), [], map[]),
      Node("identifier", 4, 7, Point(0, 4), Point(0, 7), [], map[]),
      Node("parameters", 7, 10, Point(0, 7), Point(0, 10), [], map[]),
      Node(":", 10, 11, Point(0, 10), Point(0, 11), [], map[]),
      Node("block", 16, 20, Point(1, 4), Point(1, 8), [], map[])],
    map["name" := 1, "parameters" := 2, "body" := 4])
  const ExampleModule := Node("module", 0, 21, Point(0, 0), Point(2, 0), [ExampleDef], map[])

  lemma ExampleNameSite()
    ensures FunctionSiteAsWritten(ExampleModule, [0, 1]) == Some(Site(ExampleDef.children, 1))
    ensures FunctionSite(ExampleModule, [0, 1], PYTHON) == Some(Site([ExampleDef], 0))
  {
    assert [0, 1][..1] == [0];
    assert [0][..0] == [];
    assert NodeAtPath(ExampleModule, []) == Some(ExampleModule);
    assert NodeAtPath(ExampleModule, [0]) == Some(ExampleDef);
  }

  lemma ExampleDefSignature()
    ensures PySignatureFrom(ExampleDef.children, 0, ExamplePySource) == "def foo (x):"
  {
    var cs := ExampleDef.children;
    assert NodeText(ExamplePySource, cs[0]) == "def" by {
      assert ExamplePySource[0] == 'd' && ExamplePySource[1] == 'e' && ExamplePySource[2] == 'f';
    }
    assert NodeText(ExamplePySource, cs[1]) == "foo" by {
      assert ExamplePySource[4] == 'f' && ExamplePySource[5] == 'o' && ExamplePySource[6] == 'o';
    }
    assert NodeText(ExamplePySource, cs[2]) == "(x)" by {
      assert ExamplePySource[7] == '(' && ExamplePySource[8] == 'x' && ExamplePySource[9] == ')';
    }
    assert PySignatureFrom(cs, 3, ExamplePySource) == ":";
    assert PySignatureFrom(cs, 2, ExamplePySource) == "(x):";
  }

  /** The Python function query captures the name, so the signature is
      built from the name node, which has no children, and comes out
      empty; taken from the parent, it is the function's signature. */
  lemma PythonSignatureLost()
    ensures FunctionSiteAsWritten(ExampleModule, [0, 1]).Some?
    ensures FunctionSite(ExampleModule, [0, 1], PYTHON).Some?
    ensures var s := FunctionSiteAsWritten(ExampleModule, [0, 1]).value;
            FunctionEntry(s, ExamplePySource, true, PYTHON).signature == ""
    ensures var s := FunctionSite(ExampleModule, [0, 1], PYTHON).value;
            FunctionEntry(s, ExamplePySource, true, PYTHON).signature == "def foo (x):"
  {
    ExampleNameSite();
    ExampleDefSignature();
  }
}
