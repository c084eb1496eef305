/** The per-file half of the class-hierarchy tool: the base classes and
    the virtual methods of a class_specifier node, and analyze_file, which
    collects the classes of one C++ file. */
module ClassHierarchy {
  import opened Text
  import opened Syntax
  import opened FileSystem
  import opened Language
  import opened QueryEngine

  datatype VirtualMethod = VirtualMethod(
    name: string,
    signature: string,
    line: nat,
    isPureVirtual: bool,
    isOverride: bool,
    isFinal: bool,
    access: string)

  datatype ClassInfo = ClassInfo(
    name: string,
    line: nat,
    filepath: string,
    baseClasses: seq<string>,
    virtualMethods: seq<VirtualMethod>,
    isAbstract: bool)

  /** The position of the first node whose kind is one of `kinds`. */
  function FirstOfKinds(ns: seq<Node>, kinds: set<string>): (r: Option<nat>)
    ensures r.Some? ==> r.value < |ns| && ns[r.value].kind in kinds
    ensures r.Some? ==> forall j :: 0 <= j < r.value ==> ns[j].kind !in kinds
    ensures r.None? ==> forall j :: 0 <= j < |ns| ==> ns[j].kind !in kinds
  {
    if ns == [] then None
    else if ns[0].kind in kinds then Some(0)
    else match FirstOfKinds(ns[1..], kinds)
      case None => None
      case Some(k) => Some(k + 1)
  }

  // ---------------------------------------------------------------------
  // extract_base_classes

  const TypeKinds: set<string> := {"type_identifier", "qualified_identifier", "template_type"}

  /** The base a base_class_specifier names: the text of its first child
      that is a type name. */
  function SpecifierBase(spec: Node, src: string): Option<string>
  {
    match FirstOfKinds(spec.children, TypeKinds)
    case None => None
    case Some(k) => Some(NodeText(src, spec.children[k]))
  }

  /** The bases named by the children of a base_class_clause, in order. */
  function BasesOf(specs: seq<Node>, src: string): seq<string>
  {
    if specs == [] then []
    else
      var spec := specs[|specs| - 1];
      BasesOf(specs[..|specs| - 1], src)
        + if spec.kind == "base_class_specifier" && SpecifierBase(spec, src).Some?
          then [SpecifierBase(spec, src).value] else []
  }

  /** The bases of a class: only its first base_class_clause counts. */
  function BaseClasses(node: Node, src: string): seq<string>
  {
    match FirstChildOfKind(node, "base_class_clause")
    case None => []
    case Some(i) => BasesOf(node.children[i].children, src)
  }

  /** A base_class_specifier that names the base b. */
  predicate Provides(spec: Node, src: string, b: string)
  {
    spec.kind == "base_class_specifier" && SpecifierBase(spec, src) == Some(b)
  }

  /** A name is listed exactly when some base_class_specifier of the
      clause gives it. */
  lemma {:induction false} BasesOfExact(specs: seq<Node>, src: string, b: string)
    ensures b in BasesOf(specs, src) <==> exists k :: 0 <= k < |specs| && Provides(specs[k], src, b)
    ensures |BasesOf(specs, src)| <= |specs|
  {
    if specs != [] {
      BasesOfExact(specs[..|specs| - 1], src, b);
      BasesOfLast(specs, src, b);
      ProvidesSplit(specs, specs[..|specs| - 1], src, b);
    }
  }

  /** Some specifier names b: one before the last, or the last. */
  lemma ProvidesSplit(specs: seq<Node>, init: seq<Node>, src: string, b: string)
    requires specs != [] && init == specs[..|specs| - 1]
    ensures (exists k :: 0 <= k < |specs| && Provides(specs[k], src, b)) <==>
      (exists k :: 0 <= k < |init| && Provides(init[k], src, b)) || Provides(specs[|specs| - 1], src, b)
  {
    if exists k :: 0 <= k < |specs| && Provides(specs[k], src, b) {
      var k :| 0 <= k < |specs| && Provides(specs[k], src, b);
      if k < |init| {
        assert init[k] == specs[k];
      }
    }
    if exists k :: 0 <= k < |init| && Provides(init[k], src, b) {
      var k :| 0 <= k < |init| && Provides(init[k], src, b);
      assert specs[k] == init[k];
    }
  }

  /** The last specifier adds its base, if it names one. */
  lemma BasesOfLast(specs: seq<Node>, src: string, b: string)
    requires specs != []
    ensures var last := specs[|specs| - 1];
            && (b in BasesOf(specs, src) <==>
                  b in BasesOf(specs[..|specs| - 1], src)
                  || Provides(last, src, b))
            && |BasesOf(specs, src)| <= |BasesOf(specs[..|specs| - 1], src)| + 1
  {
  }

  /** extract_base_classes: find the first base_class_clause, then take
      the first type name of each of its base_class_specifier children. */
  method ExtractBaseClasses(node: Node, src: string) returns (bases: seq<string>)
    ensures bases == BaseClasses(node, src)
  {
    bases := [];
    var i := 0;
    while i < |node.children|
      invariant 0 <= i <= |node.children|
      invariant forall k :: 0 <= k < i ==> node.children[k].kind != "base_class_clause"
      invariant bases == []
    {
      var child := node.children[i];
      if child.kind == "base_class_clause" {
        bases := ClauseBases(child.children, src);
        assert FirstChildOfKind(node, "base_class_clause") == Some(i);
        return;
      }
      i := i + 1;
    }
  }

  /** The loop over one base_class_clause. */
  method ClauseBases(specs: seq<Node>, src: string) returns (bases: seq<string>)
    ensures bases == BasesOf(specs, src)
  {
    bases := [];
    var j := 0;
    while j < |specs|
      invariant 0 <= j <= |specs|
      invariant bases == BasesOf(specs[..j], src)
    {
      var spec := specs[j];
      assert specs[..j + 1][..j] == specs[..j] && specs[..j + 1][j] == spec;
      if spec.kind == "base_class_specifier" {
        var k := 0;
        while k < |spec.children|
          invariant 0 <= k <= |spec.children|
          invariant forall l :: 0 <= l < k ==> spec.children[l].kind !in TypeKinds
        {
          if spec.children[k].kind in TypeKinds {
            assert FirstOfKinds(spec.children, TypeKinds) == Some(k);
            bases := bases + [NodeText(src, spec.children[k])];
            break;
          }
          k := k + 1;
        }
        assert BasesOf(specs[..j + 1], src) == bases;
      } else {
        assert BasesOf(specs[..j + 1], src) == BasesOf(specs[..j], src) + [];
      }
      j := j + 1;
    }
    assert specs[..j] == specs;
  }

  // ---------------------------------------------------------------------
  // extract_virtual_methods

  const VirtualKinds: set<string> := {"virtual_function_specifier", "virtual"}
  const MemberKinds: set<string> := {"function_definition", "field_declaration"}

  /** The access an access_specifier's text selects, tested in the order
      public, private, protected; anything else keeps the current one. */
  function AccessOf(text: string, current: string): (r: string)
    ensures Contains(text, "public") ==> r == "public"
    ensures !Contains(text, "public") && Contains(text, "private") ==> r == "private"
    ensures !Contains(text, "public") && !Contains(text, "private") && Contains(text, "protected") ==> r == "protected"
    ensures !Contains(text, "public") && !Contains(text, "private") && !Contains(text, "protected") ==> r == current
  {
    if Contains(text, "public") then "public"
    else if Contains(text, "private") then "private"
    else if Contains(text, "protected") then "protected"
    else current
  }

  /** The access in force after the given members of a class body: it
      starts "private" and follows each access_specifier. */
  function AccessAfter(members: seq<Node>, src: string): string
  {
    if members == [] then "private"
    else
      var prev := AccessAfter(members[..|members| - 1], src);
      var m := members[|members| - 1];
      if m.kind == "access_specifier" then AccessOf(NodeText(src, m), prev) else prev
  }

  /** Without an access_specifier, class members are private. */
  lemma {:induction false} AccessDefaultsPrivate(members: seq<Node>, src: string)
    requires forall k :: 0 <= k < |members| ==> members[k].kind != "access_specifier"
    ensures AccessAfter(members, src) == "private"
  {
    if members != [] {
      AccessDefaultsPrivate(members[..|members| - 1], src);
    }
  }

  /** The access is always one of the three C++ access levels. */
  lemma {:induction false} AccessIsLevel(members: seq<Node>, src: string)
    ensures AccessAfter(members, src) in {"public", "private", "protected"}
  {
    if members != [] {
      AccessIsLevel(members[..|members| - 1], src);
    }
  }

  /** The flags the member loop sets. */
  datatype Flags = Flags(isVirtual: bool, isPure: bool, isOverride: bool, isFinal: bool)

  /** A member is virtual through a virtual specifier or a pure clause
      among its children, or through "override" or "final" anywhere in
      its text. */
  function MemberFlags(member: Node, src: string): (f: Flags)
    ensures f.isPure <==> FirstOfKinds(member.children, {"pure_virtual_clause"}).Some?
    ensures f.isOverride <==> Contains(NodeText(src, member), "override")
    ensures f.isFinal <==> Contains(NodeText(src, member), "final")
    ensures f.isVirtual <==> FirstOfKinds(member.children, VirtualKinds).Some? || f.isPure || f.isOverride || f.isFinal
  {
    var pure := FirstOfKinds(member.children, {"pure_virtual_clause"}).Some?;
    var text := NodeText(src, member);
    var override := Contains(text, "override");
    var final := Contains(text, "final");
    Flags(FirstOfKinds(member.children, VirtualKinds).Some? || pure || override || final, pure, override, final)
  }

  /** The method name: the declarator field of the function_declarator,
      or else its text up to the first '(' with blanks trimmed. */
  function MethodName(decl: Node, src: string): string
  {
    match ChildByField(decl, "declarator")
    case Some(n) => NodeText(src, n)
    case None =>
      var text := NodeText(src, decl);
      match FindChar(text, '(')
      case None => ""
      case Some(p) => TrimRight(TrimLeft(text[..p], Blanks), Blanks)
  }

  /** The signature: the declarator text followed by the specifiers. */
  function Signature(declarator: string, f: Flags): string
  {
    declarator + (if f.isOverride then " override" else "") + (if f.isFinal then " final" else "")
      + (if f.isPure then " = 0" else "")
  }

  /** The record one member of a class body gives, if any: it must be
      virtual, have a function_declarator and a non-empty name. */
  function MemberMethod(member: Node, src: string, access: string): (r: Option<VirtualMethod>)
    ensures r.Some? ==> MemberFlags(member, src).isVirtual && r.value.name != []
    ensures r.Some? ==> r.value.access == access && r.value.line == member.start.row + 1
    ensures r.Some? ==> (r.value.isPureVirtual == MemberFlags(member, src).isPure
                         && r.value.isOverride == MemberFlags(member, src).isOverride
                         && r.value.isFinal == MemberFlags(member, src).isFinal)
    ensures r.Some? ==> exists k :: 0 <= k < |member.children| && member.children[k].kind == "function_declarator"
                          && r.value.signature == Signature(NodeText(src, member.children[k]), MemberFlags(member, src))
  {
    var f := MemberFlags(member, src);
    if !f.isVirtual then None
    else match FirstChildOfKind(member, "function_declarator")
      case None => None
      case Some(k) =>
        var decl := member.children[k];
        var name := MethodName(decl, src);
        if name == [] then None
        else Some(VirtualMethod(name, Signature(NodeText(src, decl), f), member.start.row + 1, f.isPure, f.isOverride, f.isFinal, access))
  }

  /** The records of a class body's members, in order. */
  function MethodsOf(members: seq<Node>, src: string): seq<VirtualMethod>
  {
    if members == [] then []
    else
      var init := members[..|members| - 1];
      var m := members[|members| - 1];
      MethodsOf(init, src)
        + if m.kind in MemberKinds && MemberMethod(m, src, AccessAfter(init, src)).Some?
          then [MemberMethod(m, src, AccessAfter(init, src)).value] else []
  }

  /** The virtual methods of a class: those of its first
      field_declaration_list; none without one. */
  function VirtualMethods(classNode: Node, src: string): seq<VirtualMethod>
  {
    match FirstChildOfKind(classNode, "field_declaration_list")
    case None => []
    case Some(i) => MethodsOf(classNode.children[i].children, src)
  }

  /** Every record comes from a function_definition or field_declaration
      of the body, carrying the access in force at that member. */
  lemma {:induction false} MethodsOfSource(members: seq<Node>, src: string, m: VirtualMethod)
    requires m in MethodsOf(members, src)
    ensures exists k :: 0 <= k < |members| && Declares(members, k, src, m)
  {
    var init := members[..|members| - 1];
    var last := members[|members| - 1];
    assert MethodsOf(members, src) == MethodsOf(init, src)
      + if last.kind in MemberKinds && MemberMethod(last, src, AccessAfter(init, src)).Some?
        then [MemberMethod(last, src, AccessAfter(init, src)).value] else [];
    if m in MethodsOf(init, src) {
      MethodsOfSource(init, src, m);
      var k :| 0 <= k < |init| && Declares(init, k, src, m);
      PrefixOfPrefix(members, |members| - 1, k);
      assert Declares(members, k, src, m);
    } else {
      assert Declares(members, |members| - 1, src, m);
    }
  }

  /** Member k of a class body declares m, under the access in force
      there. */
  predicate Declares(members: seq<Node>, k: nat, src: string, m: VirtualMethod)
    requires k < |members|
  {
    members[k].kind in MemberKinds && MemberMethod(members[k], src, AccessAfter(members[..k], src)) == Some(m)
  }

  /** extract_virtual_methods: find the class body, then walk its members
      tracking the current access. */
  method ExtractVirtualMethods(classNode: Node, src: string) returns (methods: seq<VirtualMethod>)
    ensures methods == VirtualMethods(classNode, src)
  {
    methods := [];
    var i := 0;
    while i < |classNode.children|
      invariant 0 <= i <= |classNode.children|
      invariant forall k :: 0 <= k < i ==> classNode.children[k].kind != "field_declaration_list"
    {
      if classNode.children[i].kind == "field_declaration_list" {
        assert FirstChildOfKind(classNode, "field_declaration_list") == Some(i);
        methods := BodyMethods(classNode.children[i].children, src);
        return;
      }
      i := i + 1;
    }
  }

  /** The member loop over a class body, with its current access. */
  method BodyMethods(members: seq<Node>, src: string) returns (methods: seq<VirtualMethod>)
    ensures methods == MethodsOf(members, src)
  {
    methods := [];
    var currentAccess := "private";
    var i := 0;
    while i < |members|
      invariant 0 <= i <= |members|
      invariant currentAccess == AccessAfter(members[..i], src)
      invariant methods == MethodsOf(members[..i], src)
    {
      var member := members[i];
      assert members[..i + 1][..i] == members[..i] && members[..i + 1][i] == member;
      if member.kind == "access_specifier" {
        currentAccess := AccessOf(NodeText(src, member), currentAccess);
        assert MethodsOf(members[..i + 1], src) == MethodsOf(members[..i], src) + [];
      } else if member.kind in MemberKinds {
        var found := MemberMethod(member, src, currentAccess);
        if found.Some? {
          methods := methods + [found.value];
        } else {
          assert MethodsOf(members[..i + 1], src) == MethodsOf(members[..i], src) + [];
        }
      } else {
        assert MethodsOf(members[..i + 1], src) == MethodsOf(members[..i], src) + [];
      }
      i := i + 1;
    }
    assert members[..i] == members;
  }

  // ---------------------------------------------------------------------
  // analyze_file

  /** A result of the class query: the class_name or base_clause capture,
      with the ancestors of its node (the parent last). */
  datatype ClassCapture = ClassCapture(result: QueryMatch, ancestors: seq<Node>)

  /** tree-sitter's parse_string for C++, and the class query's results
      on a parsed tree. */
  type Parser = string -> Option<Node>
  type ClassQuery = (Node, string) -> seq<ClassCapture>

  /** The node the walk up from a class name stops at: the nearest
      class_specifier ancestor, or the name itself when there is none. */
  function EnclosingClass(node: Node, ancestors: seq<Node>): (r: Node)
    ensures r == node || (r in ancestors && r.kind == "class_specifier")
  {
    if ancestors == [] then node
    else if ancestors[|ancestors| - 1].kind == "class_specifier" then ancestors[|ancestors| - 1]
    else EnclosingClass(node, ancestors[..|ancestors| - 1])
  }

  /** The parent walk of analyze_file. */
  method FindClassNode(node: Node, ancestors: seq<Node>) returns (classNode: Node)
    ensures classNode == EnclosingClass(node, ancestors)
  {
    classNode := node;
    var k := |ancestors|;
    assert ancestors[..k] == ancestors;
    while k > 0
      invariant 0 <= k <= |ancestors|
      invariant classNode == node
      invariant EnclosingClass(node, ancestors) == EnclosingClass(node, ancestors[..k])
    {
      var parent := ancestors[k - 1];
      assert ancestors[..k][..k - 1] == ancestors[..k - 1];
      if parent.kind == "class_specifier" {
        classNode := parent;
        return;
      }
      k := k - 1;
    }
  }

  /** The record of one class: its bases, its virtual methods when
      methods are shown, and whether one of them is pure. */
  function ClassOf(c: ClassCapture, path: string, src: string, showMethods: bool): (info: ClassInfo)
    ensures info.name == c.result.text && info.line == c.result.line && info.filepath == path
    ensures !showMethods ==> info.virtualMethods == [] && !info.isAbstract
    ensures info.isAbstract <==> exists m :: m in info.virtualMethods && m.isPureVirtual
  {
    var classNode := EnclosingClass(c.result.node, c.ancestors);
    var methods := if showMethods then VirtualMethods(classNode, src) else [];
    ClassInfo(c.result.text, c.result.line, path, BaseClasses(classNode, src), methods, AnyPure(methods))
  }

  /** std::any_of over is_pure_virtual. */
  function AnyPure(methods: seq<VirtualMethod>): (r: bool)
    ensures r <==> exists m :: m in methods && m.isPureVirtual
  {
    if methods == [] then false
    else
      assert methods == methods[..|methods| - 1] + [methods[|methods| - 1]];
      AnyPure(methods[..|methods| - 1]) || methods[|methods| - 1].isPureVirtual
  }

  /** The classes of a file: each class_name capture in turn, a later
      class of the same name replacing an earlier one. */
  function ClassesOf(captures: seq<ClassCapture>, path: string, src: string, showMethods: bool): map<string, ClassInfo>
  {
    if captures == [] then map[]
    else
      var c := captures[|captures| - 1];
      var m := ClassesOf(captures[..|captures| - 1], path, src, showMethods);
      if c.result.captureName == "class_name" then m[c.result.text := ClassOf(c, path, src, showMethods)] else m
  }

  /** A name is a class of the file exactly when some class_name capture
      has it as its text. */
  lemma {:induction false} ClassesOfKeys(captures: seq<ClassCapture>, path: string, src: string, showMethods: bool, n: string)
    ensures n in ClassesOf(captures, path, src, showMethods) <==>
      exists k :: 0 <= k < |captures| && Names(captures[k], n)
  {
    if captures != [] {
      var init := captures[..|captures| - 1];
      ClassesOfKeys(init, path, src, showMethods, n);
      if exists k :: 0 <= k < |init| && Names(init[k], n) {
        var k :| 0 <= k < |init| && Names(init[k], n);
        assert captures[k] == init[k];
      }
      if exists k :: 0 <= k < |captures| && Names(captures[k], n) {
        var k :| 0 <= k < |captures| && Names(captures[k], n);
        if k < |init| {
          assert init[k] == captures[k];
        }
      }
    }
  }

  /** Whether a capture is a class_name capture of the given name. */
  predicate Names(c: ClassCapture, n: string)
  {
    c.result.captureName == "class_name" && c.result.text == n
  }

  /** The record kept for a name is that of the last capture naming it:
      a later class of the same name replaces an earlier one. */
  lemma {:induction false} ClassesOfLast(captures: seq<ClassCapture>, path: string, src: string, showMethods: bool, k: nat)
    requires k < |captures| && captures[k].result.captureName == "class_name"
    requires forall l :: k < l < |captures| ==> !Names(captures[l], captures[k].result.text)
    ensures captures[k].result.text in ClassesOf(captures, path, src, showMethods)
    ensures ClassesOf(captures, path, src, showMethods)[captures[k].result.text]
              == ClassOf(captures[k], path, src, showMethods)
  {
    var init := captures[..|captures| - 1];
    if k < |init| {
      forall l | k < l < |init|
        ensures !Names(init[l], init[k].result.text)
      {
        assert init[l] == captures[l];
      }
      ClassesOfLast(init, path, src, showMethods, k);
      assert !Names(captures[|captures| - 1], captures[k].result.text);
    }
  }

  /** analyze_file: an unreadable file or a failed parse yields no
      classes. */
  function Analyzed(fs: FS, path: string, showMethods: bool, parse: Parser, query: ClassQuery): map<string, ClassInfo>
  {
    match ReadFile(fs, path)
    case None => map[]
    case Some(src) =>
      match parse(src)
      case None => map[]
      case Some(tree) => ClassesOf(query(tree, src), path, src, showMethods)
  }

  method AnalyzeFile(fs: FS, path: string, showMethods: bool, parse: Parser, query: ClassQuery)
    returns (classes: map<string, ClassInfo>)
    ensures classes == Analyzed(fs, path, showMethods, parse, query)
  {
    classes := map[];
    var contents := ReadFile(fs, path);
    if contents.None? {
      return;
    }
    var src := contents.value;
    var tree := parse(src);
    if tree.None? {
      return;
    }
    var matches := query(tree.value, src);
    var i := 0;
    while i < |matches|
      invariant 0 <= i <= |matches|
      invariant classes == ClassesOf(matches[..i], path, src, showMethods)
    {
      assert matches[..i + 1][..i] == matches[..i];
      classes := AddCapture(classes, matches[..i + 1], path, src, showMethods);
      i := i + 1;
    }
    assert matches[..i] == matches;
  }

  /** One turn of the capture loop: a class_name capture records its
      class under its name. */
  method AddCapture(classes0: map<string, ClassInfo>, captures: seq<ClassCapture>, path: string, src: string,
                    showMethods: bool)
    returns (classes: map<string, ClassInfo>)
    requires captures != []
    requires classes0 == ClassesOf(captures[..|captures| - 1], path, src, showMethods)
    ensures classes == ClassesOf(captures, path, src, showMethods)
  {
    classes := classes0;
    var c := captures[|captures| - 1];
    if c.result.captureName == "class_name" {
      var classNode := FindClassNode(c.result.node, c.ancestors);
      var bases := ExtractBaseClasses(classNode, src);
      var methods: seq<VirtualMethod> := [];
      if showMethods {
        methods := ExtractVirtualMethods(classNode, src);
      }
      var info := ClassInfo(c.result.text, c.result.line, path, bases, methods, AnyPure(methods));
      classes := classes[info.name := info];
    }
  }
}
