/** execute of the class-hierarchy tool: resolve the inputs, analyze every
    C++ file, merge the classes found under the same name, build the
    base-to-derived tree, optionally narrow it to the neighbourhood of one
    class, and report the classes and the tree. */
module ClassHierarchyTool {
  import opened Text
  import opened FileSystem
  import opened Language
  import opened Ordering
  import opened PathResolver
  import opened ClassHierarchy
  import DependencyGraph

  // ---------------------------------------------------------------------
  // Merging the classes of several files

  /** The bases of `ys` not yet listed, appended in order: the std::find
      loop of the merge. */
  function AppendNew(xs: seq<string>, ys: seq<string>): seq<string>
  {
    if ys == [] then xs
    else
      var prev := AppendNew(xs, ys[..|ys| - 1]);
      var y := ys[|ys| - 1];
      if y in prev then prev else prev + [y]
  }

  /** The merged list starts with the old one, holds exactly the names of
      both, and lists none twice when the old one did not. */
  lemma {:induction false} AppendNewExact(xs: seq<string>, ys: seq<string>)
    ensures |AppendNew(xs, ys)| >= |xs| && AppendNew(xs, ys)[..|xs|] == xs
    ensures Elems(AppendNew(xs, ys)) == Elems(xs) + Elems(ys)
    ensures Distinct(xs) ==> Distinct(AppendNew(xs, ys))
  {
    if ys != [] {
      var init := ys[..|ys| - 1];
      var y := ys[|ys| - 1];
      AppendNewExact(xs, init);
      var prev := AppendNew(xs, init);
      assert Elems(ys) == Elems(init) + {y} by {
        assert forall k :: 0 <= k < |ys| ==> ys[k] in Elems(init) + {y} by {
          forall k | 0 <= k < |ys| ensures ys[k] in Elems(init) + {y} {
            if k < |init| { assert ys[k] == init[k]; }
          }
        }
        assert forall k :: 0 <= k < |init| ==> init[k] == ys[k];
      }
      if y !in prev {
        assert (prev + [y])[..|xs|] == prev[..|xs|];
        assert Elems(prev + [y]) == Elems(prev) + {y} by {
          assert forall k :: 0 <= k < |prev| ==> (prev + [y])[k] == prev[k];
        }
      } else {
        assert y in Elems(prev) by {
          var k :| 0 <= k < |prev| && prev[k] == y;
        }
      }
    }
  }

  /** The std::find loop of the merge. */
  method AppendMissing(xs: seq<string>, ys: seq<string>) returns (r: seq<string>)
    ensures r == AppendNew(xs, ys)
  {
    r := xs;
    var j := 0;
    while j < |ys|
      invariant 0 <= j <= |ys|
      invariant r == AppendNew(xs, ys[..j])
    {
      assert ys[..j + 1][..j] == ys[..j] && ys[..j + 1][j] == ys[j];
      if ys[j] !in r {
        r := r + [ys[j]];
      }
      j := j + 1;
    }
    assert ys[..j] == ys;
  }

  /** A record agrees with its methods: abstract exactly when one of them
      is pure virtual, as analyze_file computes it. */
  predicate Consistent(info: ClassInfo)
  {
    info.isAbstract <==> exists m :: m in info.virtualMethods && m.isPureVirtual
  }

  /** What the merge keeps of analyze_file's reading: a record that says
      the class is abstract lists a pure virtual method. */
  predicate Justified(info: ClassInfo)
  {
    info.isAbstract ==> exists m :: m in info.virtualMethods && m.isPureVirtual
  }

  /** The merge of one record into the classes found so far, as the source
      writes it: a new name is inserted; a known one gains the new bases
      (each once, in order) and methods but keeps its line, file and
      abstractness. */
  function MergeOneAsWritten(all: map<string, ClassInfo>, name: string, info: ClassInfo): (r: map<string, ClassInfo>)
    ensures r.Keys == all.Keys + {name}
    ensures forall n :: n in all && n != name ==> r[n] == all[n]
    ensures name !in all ==> r[name] == info
    ensures name in all ==>
      && r[name].name == all[name].name && r[name].line == all[name].line && r[name].filepath == all[name].filepath
      && r[name].isAbstract == all[name].isAbstract
      && r[name].virtualMethods == all[name].virtualMethods + info.virtualMethods
      && Elems(r[name].baseClasses) == Elems(all[name].baseClasses) + Elems(info.baseClasses)
      && |r[name].baseClasses| >= |all[name].baseClasses|
      && r[name].baseClasses[..|all[name].baseClasses|] == all[name].baseClasses
  {
    if name !in all then all[name := info]
    else
      var existing := all[name];
      AppendNewExact(existing.baseClasses, info.baseClasses);
      all[name := existing.(baseClasses := AppendNew(existing.baseClasses, info.baseClasses),
                            virtualMethods := existing.virtualMethods + info.virtualMethods)]
  }

  /** The merge as written keeps every abstract record justified: the
      pure virtual method that made it abstract stays listed. */
  lemma MergeOneJustified(all: map<string, ClassInfo>, name: string, info: ClassInfo)
    requires forall n :: n in all ==> Justified(all[n])
    requires Justified(info)
    ensures forall n :: n in MergeOneAsWritten(all, name, info) ==> Justified(MergeOneAsWritten(all, name, info)[n])
  {
    var r := MergeOneAsWritten(all, name, info);
    if name in all && all[name].isAbstract {
      var m :| m in all[name].virtualMethods && m.isPureVirtual;
      assert m in r[name].virtualMethods;
    }
  }

  /** A forward declaration merged with the definition: the merged record
      lists a pure virtual method and still says the class is not
      abstract. */
  lemma ForwardDeclarationNotAbstract()
    ensures var draw := VirtualMethod("draw", "draw()", 3, true, false, false, "public");
            var declared := ClassInfo("Shape", 1, "a.hpp", [], [], false);
            var defined := ClassInfo("Shape", 2, "b.hpp", [], [draw], true);
            var merged := MergeOneAsWritten(map["Shape" := declared], "Shape", defined)["Shape"];
            Consistent(declared) && Consistent(defined) && !Consistent(merged)
  {
    var draw := VirtualMethod("draw", "draw()", 3, true, false, false, "public");
    var merged := MergeOneAsWritten(map["Shape" := ClassInfo("Shape", 1, "a.hpp", [], [], false)], "Shape",
                                    ClassInfo("Shape", 2, "b.hpp", [], [draw], true))["Shape"];
    assert draw in merged.virtualMethods;
  }

  /** The merge of one record with abstractness carried over: a class is
      abstract when either part declares a pure virtual method. */
  function MergeOne(all: map<string, ClassInfo>, name: string, info: ClassInfo): (r: map<string, ClassInfo>)
    ensures r.Keys == all.Keys + {name}
    ensures forall n :: n in all && n != name ==> r[n] == all[n]
    ensures name !in all ==> r[name] == info
    ensures name in all ==>
      && r[name].name == all[name].name && r[name].line == all[name].line && r[name].filepath == all[name].filepath
      && r[name].virtualMethods == all[name].virtualMethods + info.virtualMethods
      && Elems(r[name].baseClasses) == Elems(all[name].baseClasses) + Elems(info.baseClasses)
      && |r[name].baseClasses| >= |all[name].baseClasses|
      && r[name].baseClasses[..|all[name].baseClasses|] == all[name].baseClasses
  {
    if name !in all then all[name := info]
    else
      var existing := all[name];
      AppendNewExact(existing.baseClasses, info.baseClasses);
      all[name := existing.(baseClasses := AppendNew(existing.baseClasses, info.baseClasses),
                            virtualMethods := existing.virtualMethods + info.virtualMethods,
                            isAbstract := existing.isAbstract || info.isAbstract)]
  }

  /** The corrected merge keeps every record consistent with its methods. */
  lemma MergeOneConsistent(all: map<string, ClassInfo>, name: string, info: ClassInfo)
    requires forall n :: n in all ==> Consistent(all[n])
    requires Consistent(info)
    ensures forall n :: n in MergeOne(all, name, info) ==> Consistent(MergeOne(all, name, info)[n])
  {
    var r := MergeOne(all, name, info);
    if name in all {
      var e := all[name];
      if e.isAbstract || info.isAbstract {
        if e.isAbstract {
          var m :| m in e.virtualMethods && m.isPureVirtual;
          assert m in r[name].virtualMethods;
        } else {
          var m :| m in info.virtualMethods && m.isPureVirtual;
          assert m in r[name].virtualMethods;
        }
      }
    }
  }

  /** The merge of the classes of one file, in name order. */
  function MergeNames(all: map<string, ClassInfo>, file: map<string, ClassInfo>, names: seq<string>): map<string, ClassInfo>
  {
    if names == [] then all
    else
      var prev := MergeNames(all, file, names[..|names| - 1]);
      var last := names[|names| - 1];
      if last in file then MergeOneAsWritten(prev, last, file[last]) else prev
  }

  function MergeFile(all: map<string, ClassInfo>, file: map<string, ClassInfo>): map<string, ClassInfo>
  {
    MergeNames(all, file, InOrder(file.Keys, false))
  }

  /** A merged file adds its class names, and keeps records consistent. */
  lemma {:induction false} MergeNamesExact(all: map<string, ClassInfo>, file: map<string, ClassInfo>, names: seq<string>)
    requires forall k :: 0 <= k < |names| ==> names[k] in file
    ensures forall n :: n in MergeNames(all, file, names) <==> n in all || n in names
  {
    if names != [] {
      var init := names[..|names| - 1];
      MergeNamesExact(all, file, init);
      assert names == init + [names[|names| - 1]];
    }
  }

  lemma {:induction false} MergeNamesJustified(all: map<string, ClassInfo>, file: map<string, ClassInfo>, names: seq<string>)
    requires forall n :: n in all ==> Justified(all[n])
    requires forall n :: n in file ==> Justified(file[n])
    ensures forall n :: n in MergeNames(all, file, names) ==> Justified(MergeNames(all, file, names)[n])
  {
    if names != [] {
      var init := names[..|names| - 1];
      MergeNamesJustified(all, file, init);
      if names[|names| - 1] in file {
        MergeOneJustified(MergeNames(all, file, init), names[|names| - 1], file[names[|names| - 1]]);
      }
    }
  }

  /** The merge of one record, with the std::find loop for the bases. */
  method MergeRecord(all: map<string, ClassInfo>, name: string, info: ClassInfo) returns (merged: map<string, ClassInfo>)
    ensures merged == MergeOneAsWritten(all, name, info)
  {
    if name !in all {
      merged := all[name := info];
    } else {
      var existing := all[name];
      var bases := AppendMissing(existing.baseClasses, info.baseClasses);
      merged := all[name := existing.(baseClasses := bases,
                                      virtualMethods := existing.virtualMethods + info.virtualMethods)];
    }
  }

  /** The merge loop for one file. */
  method MergeInto(all: map<string, ClassInfo>, file: map<string, ClassInfo>) returns (merged: map<string, ClassInfo>)
    ensures merged == MergeFile(all, file)
  {
    merged := MergeEach(all, file, InOrder(file.Keys, false));
  }

  method MergeEach(all: map<string, ClassInfo>, file: map<string, ClassInfo>, names: seq<string>)
    returns (merged: map<string, ClassInfo>)
    ensures merged == MergeNames(all, file, names)
  {
    merged := all;
    var i := 0;
    while i < |names|
      invariant 0 <= i <= |names|
      invariant merged == MergeNames(all, file, names[..i])
    {
      var name := names[i];
      assert names[..i + 1][..i] == names[..i] && names[..i + 1][i] == name;
      if name in file {
        merged := MergeRecord(merged, name, file[name]);
      }
      i := i + 1;
    }
    assert names[..i] == names;
  }

  /** A merged file adds exactly its own class names. */
  lemma MergeFileExact(all: map<string, ClassInfo>, file: map<string, ClassInfo>)
    ensures forall n :: n in MergeFile(all, file) <==> n in all || n in file
  {
    var names := InOrder(file.Keys, false);
    InOrderSorted(file.Keys, false);
    assert forall k :: 0 <= k < |names| ==> names[k] in file by {
      assert forall k :: 0 <= k < |names| ==> names[k] in Elems(names);
    }
    MergeNamesExact(all, file, names);
    assert forall n :: n in names <==> n in Elems(names);
  }

  /** The classes of all resolved files: only C++ files are analyzed. */
  function Merged(fs: FS, files: seq<string>, showMethods: bool, parse: Parser, query: ClassQuery): map<string, ClassInfo>
  {
    if files == [] then map[]
    else
      var prev := Merged(fs, files[..|files| - 1], showMethods, parse, query);
      var f := files[|files| - 1];
      if DetectFromExtension(f) != CPP then prev
      else MergeFile(prev, Analyzed(fs, f, showMethods, parse, query))
  }

  /** The number of files analyzed: the C++ ones. */
  function CppFiles(files: seq<string>): (n: nat)
    ensures n <= |files|
  {
    if files == [] then 0
    else CppFiles(files[..|files| - 1]) + if DetectFromExtension(files[|files| - 1]) == CPP then 1 else 0
  }

  /** Every record of one file's classes agrees with its methods. */
  lemma {:induction false} ClassesConsistent(captures: seq<ClassCapture>, path: string, src: string, showMethods: bool)
    ensures forall n :: n in ClassesOf(captures, path, src, showMethods) ==> Consistent(ClassesOf(captures, path, src, showMethods)[n])
  {
    if captures != [] {
      ClassesConsistent(captures[..|captures| - 1], path, src, showMethods);
    }
  }

  /** Every record analyze_file returns agrees with its methods. */
  lemma AnalyzedConsistent(fs: FS, f: string, showMethods: bool, parse: Parser, query: ClassQuery)
    ensures forall n :: n in Analyzed(fs, f, showMethods, parse, query) ==> Consistent(Analyzed(fs, f, showMethods, parse, query)[n])
  {
    match ReadFile(fs, f)
    case None =>
    case Some(src) =>
      match parse(src)
      case None =>
      case Some(tree) => ClassesConsistent(query(tree, src), f, src, showMethods);
  }

  /** Whether a file is a C++ file whose analysis finds the class. */
  predicate Defines(fs: FS, f: string, showMethods: bool, parse: Parser, query: ClassQuery, n: string)
  {
    DetectFromExtension(f) == CPP && n in Analyzed(fs, f, showMethods, parse, query)
  }

  /** Whether some element satisfies `p`. */
  predicate Any<T>(xs: seq<T>, p: T -> bool)
  {
    exists i :: 0 <= i < |xs| && p(xs[i])
  }

  lemma AnyNext<T>(xs: seq<T>, p: T -> bool)
    requires xs != []
    ensures Any(xs, p) <==> Any(xs[..|xs| - 1], p) || p(xs[|xs| - 1])
  {
    var init := xs[..|xs| - 1];
    if Any(xs, p) && !p(xs[|xs| - 1]) {
      var i :| 0 <= i < |xs| && p(xs[i]);
      assert init[i] == xs[i];
    }
    if Any(init, p) {
      var i :| 0 <= i < |init| && p(init[i]);
      assert init[i] == xs[i];
    }
  }

  /** Defines, as a test on the file alone. */
  function DefinesIn(fs: FS, showMethods: bool, parse: Parser, query: ClassQuery, n: string): string -> bool
  {
    f => Defines(fs, f, showMethods, parse, query, n)
  }

  /** A class is reported exactly when some C++ file defines it. */
  lemma {:induction false} MergedExact(fs: FS, files: seq<string>, showMethods: bool, parse: Parser, query: ClassQuery, n: string)
    ensures n in Merged(fs, files, showMethods, parse, query) <==> Any(files, DefinesIn(fs, showMethods, parse, query, n))
  {
    if files != [] {
      MergedExact(fs, files[..|files| - 1], showMethods, parse, query, n);
      MergedStep(fs, files, showMethods, parse, query, n);
      AnyNext(files, DefinesIn(fs, showMethods, parse, query, n));
    }
  }

  /** One file's step of the merge. */
  lemma MergedStep(fs: FS, files: seq<string>, showMethods: bool, parse: Parser, query: ClassQuery, n: string)
    requires files != []
    ensures n in Merged(fs, files, showMethods, parse, query) <==>
      n in Merged(fs, files[..|files| - 1], showMethods, parse, query) || Defines(fs, files[|files| - 1], showMethods, parse, query, n)
  {
    var f := files[|files| - 1];
    if DetectFromExtension(f) == CPP {
      MergeFileExact(Merged(fs, files[..|files| - 1], showMethods, parse, query), Analyzed(fs, f, showMethods, parse, query));
    }
  }

  /** Every merged record that says abstract lists a pure virtual method. */
  lemma {:induction false} MergedJustified(fs: FS, files: seq<string>, showMethods: bool, parse: Parser, query: ClassQuery)
    ensures forall m :: m in Merged(fs, files, showMethods, parse, query) ==> Justified(Merged(fs, files, showMethods, parse, query)[m])
  {
    if files != [] {
      var init := files[..|files| - 1];
      var f := files[|files| - 1];
      MergedJustified(fs, init, showMethods, parse, query);
      if DetectFromExtension(f) == CPP {
        AnalyzedConsistent(fs, f, showMethods, parse, query);
        var file := Analyzed(fs, f, showMethods, parse, query);
        MergeNamesJustified(Merged(fs, init, showMethods, parse, query), file, InOrder(file.Keys, false));
      }
    }
  }

  /** The loop over the resolved files: analyze and merge each C++ file. */
  method CollectClasses(fs: FS, files: seq<string>, showMethods: bool, parse: Parser, query: ClassQuery)
    returns (all: map<string, ClassInfo>, processed: nat)
    ensures all == Merged(fs, files, showMethods, parse, query)
    ensures processed == CppFiles(files)
  {
    all := map[];
    processed := 0;
    var i := 0;
    while i < |files|
      invariant 0 <= i <= |files|
      invariant all == Merged(fs, files[..i], showMethods, parse, query)
      invariant processed == CppFiles(files[..i])
    {
      assert files[..i + 1][..i] == files[..i];
      all, processed := CollectOne(fs, files[..i + 1], showMethods, parse, query, all, processed);
      i := i + 1;
    }
    assert files[..i] == files;
  }

  /** One turn of the file loop: the last file of `files` is analyzed and
      merged when it is a C++ file. */
  method CollectOne(fs: FS, files: seq<string>, showMethods: bool, parse: Parser, query: ClassQuery,
                    all0: map<string, ClassInfo>, processed0: nat)
    returns (all: map<string, ClassInfo>, processed: nat)
    requires files != []
    requires all0 == Merged(fs, files[..|files| - 1], showMethods, parse, query)
    requires processed0 == CppFiles(files[..|files| - 1])
    ensures all == Merged(fs, files, showMethods, parse, query)
    ensures processed == CppFiles(files)
  {
    var f := files[|files| - 1];
    all, processed := all0, processed0;
    if DetectFromExtension(f) == CPP {
      var file := AnalyzeFile(fs, f, showMethods, parse, query);
      all := MergeInto(all, file);
      processed := processed + 1;
    }
  }

  // ---------------------------------------------------------------------
  // build_hierarchy_tree

  /** The bases of a name; none for a name that is not a class. */
  function BasesOfName(classes: map<string, ClassInfo>, n: string): seq<string>
  {
    if n in classes then classes[n].baseClasses else []
  }

  /** The children a tree holds for a name; none when it is not a key. */
  function ChildrenIn(h: map<string, set<string>>, n: string): set<string>
  {
    if n in h then h[n] else {}
  }

  /** Adding a class as a child of each of the given bases. */
  function WithBases(h: map<string, set<string>>, name: string, bases: seq<string>): map<string, set<string>>
  {
    if bases == [] then h
    else
      var prev := WithBases(h, name, bases[..|bases| - 1]);
      var b := bases[|bases| - 1];
      prev[b := ChildrenIn(prev, b) + {name}]
  }

  /** The tree built from the given classes, in order: each is a key, and
      a child of each of its bases. */
  function TreeOf(classes: map<string, ClassInfo>, names: seq<string>): map<string, set<string>>
  {
    if names == [] then map[]
    else
      var prev := TreeOf(classes, names[..|names| - 1]);
      var name := names[|names| - 1];
      WithBases(if name in prev then prev else prev[name := {}], name, BasesOfName(classes, name))
  }

  function Hierarchy(classes: map<string, ClassInfo>): map<string, set<string>>
  {
    TreeOf(classes, InOrder(classes.Keys, false))
  }

  lemma {:induction false} WithBasesExact(h: map<string, set<string>>, name: string, bases: seq<string>, n: string)
    ensures n in WithBases(h, name, bases) <==> n in h || n in bases
    ensures ChildrenIn(WithBases(h, name, bases), n) == ChildrenIn(h, n) + (if n in bases then {name} else {})
  {
    if bases != [] {
      var init := bases[..|bases| - 1];
      WithBasesExact(h, name, init, n);
      assert bases == init + [bases[|bases| - 1]];
    }
  }

  /** The keys of the tree are the classes and their bases, and a class is
      a child of a name exactly when it lists that name as a base. */
  lemma {:induction false} TreeOfExact(classes: map<string, ClassInfo>, names: seq<string>, n: string, c: string)
    ensures n in TreeOf(classes, names) <==> n in names || exists d :: d in names && n in BasesOfName(classes, d)
    ensures c in ChildrenIn(TreeOf(classes, names), n) <==> c in names && n in BasesOfName(classes, c)
  {
    if names != [] {
      var init := names[..|names| - 1];
      var name := names[|names| - 1];
      assert names == init + [name];
      TreeOfExact(classes, init, n, c);
      var prev := TreeOf(classes, init);
      var start := if name in prev then prev else prev[name := {}];
      WithBasesExact(start, name, BasesOfName(classes, name), n);
      assert ChildrenIn(start, n) == ChildrenIn(prev, n);
      if exists d :: d in init && n in BasesOfName(classes, d) {
        var d :| d in init && n in BasesOfName(classes, d);
        assert d in names;
      }
    }
  }

  /** One class's step of build_hierarchy_tree. */
  method AddClass(h0: map<string, set<string>>, name: string, bases: seq<string>) returns (h: map<string, set<string>>)
    ensures h == WithBases(if name in h0 then h0 else h0[name := {}], name, bases)
  {
    h := h0;
    if name !in h {
      h := h[name := {}];
    }
    ghost var start := h;
    var j := 0;
    while j < |bases|
      invariant 0 <= j <= |bases|
      invariant h == WithBases(start, name, bases[..j])
    {
      assert bases[..j + 1][..j] == bases[..j] && bases[..j + 1][j] == bases[j];
      var children := if bases[j] in h then h[bases[j]] else {};
      h := h[bases[j] := children + {name}];
      j := j + 1;
    }
    assert bases[..j] == bases;
  }

  /** build_hierarchy_tree: each class in name order is a key, and becomes
      a child of each of its bases, which are keys too. */
  method BuildHierarchyTree(classes: map<string, ClassInfo>) returns (hierarchy: map<string, set<string>>)
    ensures hierarchy == Hierarchy(classes)
    ensures forall n :: n in hierarchy <==> n in classes || exists c :: c in classes && n in classes[c].baseClasses
    ensures forall b, c :: b in hierarchy ==> (c in hierarchy[b] <==> c in classes && b in classes[c].baseClasses)
  {
    var names := InOrder(classes.Keys, false);
    InOrderSorted(classes.Keys, false);
    hierarchy := TreeLoop(classes, names);
    assert forall x :: x in names <==> x in classes by {
      assert forall x :: x in names <==> x in Elems(names);
    }
    TreeMeaning(classes, names, hierarchy);
  }

  method TreeLoop(classes: map<string, ClassInfo>, names: seq<string>) returns (hierarchy: map<string, set<string>>)
    ensures hierarchy == TreeOf(classes, names)
  {
    hierarchy := map[];
    var i := 0;
    while i < |names|
      invariant 0 <= i <= |names|
      invariant hierarchy == TreeOf(classes, names[..i])
    {
      var name := names[i];
      assert names[..i + 1][..i] == names[..i] && names[..i + 1][i] == name;
      var bases := if name in classes then classes[name].baseClasses else [];
      hierarchy := AddClass(hierarchy, name, bases);
      i := i + 1;
    }
    assert names[..i] == names;
  }

  /** The tree's meaning, over all classes. */
  lemma TreeMeaning(classes: map<string, ClassInfo>, names: seq<string>, h: map<string, set<string>>)
    requires forall x :: x in names <==> x in classes
    requires h == TreeOf(classes, names)
    ensures forall n :: n in h <==> n in classes || exists c :: c in classes && n in classes[c].baseClasses
    ensures forall b, c :: b in h ==> (c in h[b] <==> c in classes && b in classes[c].baseClasses)
  {
    forall n
      ensures n in h <==> n in classes || exists c :: c in classes && n in classes[c].baseClasses
    {
      TreeOfExact(classes, names, n, n);
      if exists c :: c in classes && n in classes[c].baseClasses {
        var c :| c in classes && n in classes[c].baseClasses;
        assert c in names && n in BasesOfName(classes, c);
      }
    }
    forall b, c | b in h
      ensures c in h[b] <==> c in classes && b in classes[c].baseClasses
    {
      TreeOfExact(classes, names, b, c);
      assert ChildrenIn(h, b) == h[b];
    }
  }

  // ---------------------------------------------------------------------
  // filter_hierarchy

  /** The neighbours filter_hierarchy visits from a name: its children in
      the tree, in order, then its bases. */
  function Neighbours(classes: map<string, ClassInfo>, hierarchy: map<string, set<string>>, n: string): seq<string>
  {
    (if n in hierarchy then InOrder(hierarchy[n], false) else [])
      + (if n in classes then classes[n].baseClasses else [])
  }

  /** The tree as an undirected graph over classes and bases, in the form
      the dependency graph's breadth-first search walks. */
  function Links(classes: map<string, ClassInfo>, hierarchy: map<string, set<string>>): (g: DependencyGraph.Graph)
    ensures g.Keys == classes.Keys + hierarchy.Keys
    ensures forall n :: n in g ==> g[n].includes == Neighbours(classes, hierarchy, n)
  {
    map n | n in classes.Keys + hierarchy.Keys :: DependencyGraph.FileNode(n, Neighbours(classes, hierarchy, n), [], false, -1)
  }

  /** filter_hierarchy: a breadth-first search from the root through
      children and bases, expanding names shallower than maxDepth (all
      names when maxDepth < 0), keeping the classes it reaches. */
  method FilterHierarchy(classes: map<string, ClassInfo>, hierarchy: map<string, set<string>>, root: string, maxDepth: int)
    returns (filtered: map<string, ClassInfo>)
    ensures forall n :: n in filtered ==> n in classes && filtered[n] == classes[n]
    ensures maxDepth >= 0 ==> forall n :: n in filtered <==>
              n in classes && n in DependencyGraph.Within(Links(classes, hierarchy), [root], maxDepth)
    ensures maxDepth < 0 ==> forall n :: n in filtered <==>
              n in classes && DependencyGraph.Reachable(Links(classes, hierarchy), [root], n)
    ensures root in classes ==> root in filtered
    ensures maxDepth == 0 ==> forall n :: n in filtered <==> n == root && n in classes
  {
    var links := Links(classes, hierarchy);
    var reached := DependencyGraph.FilterByDepth(links, [root], maxDepth);
    filtered := map n | n in reached && n in classes :: classes[n];
    if root in classes {
      assert root in DependencyGraph.Within(links, [root], 0);
      if maxDepth >= 0 {
        DependencyGraph.WithinMonotone(links, [root], 0, maxDepth);
      }
    }
  }

  // ---------------------------------------------------------------------
  // hierarchy_to_json

  /** One entry of the "hierarchy" object. */
  datatype HierarchyEntry = HierarchyEntry(name: string, children: seq<string>, parents: seq<string>, isAbstract: bool)

  /** The entry of one name. */
  function EntryOf(hierarchy: map<string, set<string>>, classes: map<string, ClassInfo>, name: string): HierarchyEntry
  {
    HierarchyEntry(name, InOrder(ChildrenIn(hierarchy, name), false), BasesOfName(classes, name),
                   name in classes && classes[name].isAbstract)
  }

  /** An entry lists the name's children in name order, its parents the
      bases of the class (none for a name that is not a class), and is
      abstract only for an abstract class. */
  lemma EntryOfMeaning(hierarchy: map<string, set<string>>, classes: map<string, ClassInfo>, name: string)
    ensures var e := EntryOf(hierarchy, classes, name);
            && e.name == name
            && Sorted(e.children, false) && Elems(e.children) == ChildrenIn(hierarchy, name)
            && e.parents == BasesOfName(classes, name)
            && (e.isAbstract <==> name in classes && classes[name].isAbstract)
  {
    InOrderSorted(ChildrenIn(hierarchy, name), false);
  }

  /** EntryOf, as a function of the name alone. */
  function EntryFor(hierarchy: map<string, set<string>>, classes: map<string, ClassInfo>): string -> HierarchyEntry
  {
    name => EntryOf(hierarchy, classes, name)
  }

  /** The entries of the "hierarchy" object: one per key, in name order. */
  function Entries(hierarchy: map<string, set<string>>, classes: map<string, ClassInfo>): seq<HierarchyEntry>
  {
    MapSeq(EntryFor(hierarchy, classes), InOrder(hierarchy.Keys, false))
  }

  /** The entry built for one key. */
  method BuildEntry(hierarchy: map<string, set<string>>, classes: map<string, ClassInfo>, name: string)
    returns (entry: HierarchyEntry)
    requires name in hierarchy
    ensures entry == EntryFor(hierarchy, classes)(name)
  {
    var parents := if name in classes then classes[name].baseClasses else [];
    var isAbstract := if name in classes then classes[name].isAbstract else false;
    entry := HierarchyEntry(name, InOrder(hierarchy[name], false), parents, isAbstract);
  }

  /** hierarchy_to_json: one entry per key, in name order. */
  method HierarchyToJson(hierarchy: map<string, set<string>>, classes: map<string, ClassInfo>)
    returns (entries: seq<HierarchyEntry>)
    ensures entries == Entries(hierarchy, classes)
    ensures |entries| == |hierarchy|
    ensures forall i :: 0 <= i < |entries| ==> entries[i] == EntryOf(hierarchy, classes, InOrder(hierarchy.Keys, false)[i])
  {
    var names := InOrder(hierarchy.Keys, false);
    ghost var f := EntryFor(hierarchy, classes);
    entries := [];
    var i := 0;
    while i < |names|
      invariant 0 <= i <= |names|
      invariant entries == MapSeq(f, names[..i])
    {
      var name := names[i];
      InOrderMember(hierarchy.Keys, false, i);
      var entry := BuildEntry(hierarchy, classes, name);
      MapSeqNext(f, names, i);
      entries := entries + [entry];
      i := i + 1;
    }
    assert names[..i] == names;
  }

  // ---------------------------------------------------------------------
  // execute

  /** The tool's arguments; an absent optional field takes its default. */
  datatype Args = Args(
    filepath: Option<seq<string>>,
    className: Option<string>,
    showMethods: Option<bool>,
    maxDepth: Option<int>,
    recursive: Option<bool>,
    filePatterns: Option<seq<string>>)

  const DefaultPatterns: seq<string> := ["*.cpp", "*.hpp", "*.h", "*.cc", "*.cxx"]

  function OrDefault<T>(o: Option<T>, d: T): T
  {
    match o
    case Some(v) => v
    case None => d
  }

  function Patterns(a: Args): seq<string>
  {
    OrDefault(a.filePatterns, DefaultPatterns)
  }

  /** What execute returns: an error, or the report. */
  datatype Outcome =
    | Failure(error: string, hasSuccessField: bool)
    | Report(classes: map<string, ClassInfo>, hierarchy: seq<HierarchyEntry>,
             totalFiles: nat, filesProcessed: nat, filesFailed: nat, totalClasses: nat)

  const MissingFilepath := "Missing required parameter: filepath"
  const NothingResolved := "Failed to resolve any files from filepath"

  /** The error for a requested class that no file defines. */
  function ClassNotFound(name: string): string
  {
    "Class not found: " + name
  }

  /** execute. `canonical` stands for std::filesystem::canonical; `parse`
      and `query` stand for tree-sitter. */
  method Execute(fs: FS, a: Args, parse: Parser, query: ClassQuery, canonical: string -> string)
    returns (out: Outcome)
    requires AllPlain(Patterns(a))
    ensures a.filepath.None? <==> out == Failure(MissingFilepath, false)
    ensures a.filepath.Some? ==>
      (out == Failure(NothingResolved, true) <==>
         Resolved(fs, a.filepath.value, OrDefault(a.recursive, true), Patterns(a), canonical) == {})
    ensures a.filepath.Some? && Resolved(fs, a.filepath.value, OrDefault(a.recursive, true), Patterns(a), canonical) != {} ==>
      var files := InOrder(Resolved(fs, a.filepath.value, OrDefault(a.recursive, true), Patterns(a), canonical), ComparePaths);
      var all := Merged(fs, files, OrDefault(a.showMethods, true), parse, query);
      var name := OrDefault(a.className, "");
      && (out.Failure? <==> name != [] && name !in all)
      && (out.Failure? ==> out == Failure(ClassNotFound(name), true))
      && (out.Report? ==>
            && out.totalFiles == |files| && out.filesProcessed == CppFiles(files) && out.filesFailed == 0
            && out.totalClasses == |out.classes|
            && (name == [] ==> out.classes == all)
            && (name != [] ==> name in out.classes)
            && (forall n :: n in out.classes ==> n in all && out.classes[n] == all[n])
            && (forall n :: n in out.classes ==> Justified(out.classes[n]))
            && |out.hierarchy| == |Hierarchy(out.classes)|
            && (forall i :: 0 <= i < |out.hierarchy| ==> out.hierarchy[i].name == InOrder(Hierarchy(out.classes).Keys, false)[i])
            && out.hierarchy == Entries(Hierarchy(out.classes), out.classes)
            && (name != [] ==> Narrowed(all, name, OrDefault(a.maxDepth, -1), out.classes)))
  {
    if a.filepath.None? {
      return Failure(MissingFilepath, false);
    }
    var name := OrDefault(a.className, "");
    var showMethods := OrDefault(a.showMethods, true);
    var maxDepth := OrDefault(a.maxDepth, -1);
    var recursive := OrDefault(a.recursive, true);
    var patterns := Patterns(a);

    var resolved := ResolvePaths(fs, a.filepath.value, recursive, patterns, canonical);
    ghost var found := Resolved(fs, a.filepath.value, recursive, patterns, canonical);
    InOrderSorted(found, ComparePaths);
    SortedUnique(resolved, InOrder(found, ComparePaths), ComparePaths);
    if resolved == [] {
      return Failure(NothingResolved, true);
    }
    assert found != {} by {
      assert resolved[0] in Elems(resolved);
    }

    var all, processed := CollectClasses(fs, resolved, showMethods, parse, query);
    MergedJustified(fs, resolved, showMethods, parse, query);
    out := Summarize(all, name, maxDepth, |resolved|, processed);
    assert out.Failure? ==> out.error[0] != NothingResolved[0];
  }

  /** The classes kept for a requested class: those within `maxDepth`
      steps of it through bases and derived classes of the whole tree, or
      every class connected to it when `maxDepth` is negative. */
  ghost predicate Narrowed(all: map<string, ClassInfo>, name: string, maxDepth: int, classes: map<string, ClassInfo>)
  {
    && (maxDepth >= 0 ==> forall n :: n in classes <==>
          n in all && n in DependencyGraph.Within(Links(all, Hierarchy(all)), [name], maxDepth))
    && (maxDepth < 0 ==> forall n :: n in classes <==>
          n in all && DependencyGraph.Reachable(Links(all, Hierarchy(all)), [name], n))
  }

  /** The part of execute after the merge: build the tree, narrow it to the
      requested class, and report. */
  method Summarize(all: map<string, ClassInfo>, name: string, maxDepth: int, totalFiles: nat, processed: nat)
    returns (out: Outcome)
    requires forall n :: n in all ==> Justified(all[n])
    ensures out.Failure? <==> name != [] && name !in all
    ensures out.Failure? ==> out == Failure(ClassNotFound(name), true)
    ensures out.Report? ==>
      && out.totalFiles == totalFiles && out.filesProcessed == processed && out.filesFailed == 0
      && out.totalClasses == |out.classes|
      && (name == [] ==> out.classes == all)
      && (name != [] ==> name in out.classes)
      && (forall n :: n in out.classes ==> n in all && out.classes[n] == all[n])
      && (forall n :: n in out.classes ==> Justified(out.classes[n]))
      && |out.hierarchy| == |Hierarchy(out.classes)|
      && (forall i :: 0 <= i < |out.hierarchy| ==> out.hierarchy[i].name == InOrder(Hierarchy(out.classes).Keys, false)[i])
      && out.hierarchy == Entries(Hierarchy(out.classes), out.classes)
      && (name != [] ==> Narrowed(all, name, maxDepth, out.classes))
  {
    var hierarchy := BuildHierarchyTree(all);
    var classes := all;
    if name != [] {
      if name !in all {
        return Failure(ClassNotFound(name), true);
      }
      classes := FilterHierarchy(all, hierarchy, name, maxDepth);
      hierarchy := BuildHierarchyTree(classes);
    }
    var entries := HierarchyToJson(hierarchy, classes);
    out := Report(classes, entries, totalFiles, processed, 0, |classes|);
  }
}
