/** The extract_interface tool around the extraction: the C++-style
    header rendering with its access grouping and namespace wrapping,
    the JSON statistics, and execute with its argument errors, the
    single-file formats and the batch counters. */
module ExtractInterfaceTool {
  import opened Text
  import opened Language
  import opened FileSystem
  import opened Ordering
  import opened PathResolver
  import opened ExtractInterface
  import ASTAnalyzer

  function OrDefault<T>(o: Option<T>, d: T): T
  {
    match o
    case Some(v) => v
    case None => d
  }

  // ---------------------------------------------------------------------
  // format_as_header

  /** One line of a class block with the access it is listed under. */
  datatype Listing = Listing(access: string, text: string)

  /** Methods are listed as public and fields as private when they carry
      no access. */
  function MethodEntries(ms: seq<FunctionSig>): (r: seq<Listing>)
    ensures |r| == |ms|
  {
    seq(|ms|, i requires 0 <= i < |ms| => Listing(OrDefault(ms[i].access, "public"), "    " + ms[i].signature + "\n"))
  }

  function FieldEntries(fs: seq<Field>): (r: seq<Listing>)
    ensures |r| == |fs|
  {
    seq(|fs|, i requires 0 <= i < |fs| => FieldListing(fs[i]))
  }

  function FieldListing(f: Field): Listing
  {
    Listing(OrDefault(f.access, "private"), "    " + f.declaration + ";\n")
  }

  /** The access of the last entry, "" before the first. */
  function LastAccess(es: seq<Listing>): string
  {
    if es == [] then "" else es[|es| - 1].access
  }

  /** An entry's text, preceded by its access label when the access
      differs from the one before. */
  function Piece(prev: string, e: Listing): string
  {
    (if e.access != prev then e.access + ":\n" else "") + e.text
  }

  /** The class body: every entry's line in order, with a label exactly
      where the access changes from the previous entry's (or from "" at
      the first). */
  function Grouped(es: seq<Listing>): string
  {
    if es == [] then "" else Grouped(es[..|es| - 1]) + Piece(LastAccess(es[..|es| - 1]), es[|es| - 1])
  }

  /** The entries' lines, without labels. */
  function ListingLines(es: seq<Listing>): string
  {
    if es == [] then "" else ListingLines(es[..|es| - 1]) + es[|es| - 1].text
  }

  lemma GroupedNext(es: seq<Listing>, e: Listing)
    ensures Grouped(es + [e]) == Grouped(es) + Piece(LastAccess(es), e)
  {
    assert (es + [e])[..|es|] == es;
  }

  /** A class whose entries all share one access gets one label, before
      the first entry. */
  lemma {:induction false} UniformAccessOneLabel(es: seq<Listing>, a: string)
    requires es != [] && a != ""
    requires forall k :: 0 <= k < |es| ==> es[k].access == a
    ensures Grouped(es) == a + ":\n" + ListingLines(es)
  {
    var init := es[..|es| - 1];
    if init == [] {
      assert ListingLines(es) == es[0].text;
    } else {
      UniformAccessOneLabel(init, a);
      assert LastAccess(init) == a;
    }
  }

  function CommentLine(c: Option<string>): string
  {
    match c
    case None => ""
    case Some(text) => text + "\n"
  }

  /** "public B1, public B2, ...". */
  function BaseList(bs: seq<string>): string
  {
    if bs == [] then ""
    else BaseList(bs[..|bs| - 1]) + (if |bs| > 1 then ", " else "") + "public " + bs[|bs| - 1]
  }

  function BasesText(bs: seq<string>): string
  {
    if bs == [] then "" else " : " + BaseList(bs)
  }

  function ClassHead(c: ClassInterface): string
  {
    CommentLine(c.comment) + "class " + c.name + BasesText(c.baseClasses) + " {\n"
  }

  function ClassText(c: ClassInterface): string
  {
    ClassHead(c) + Grouped(ClassListings(c)) + "};\n\n"
  }

  function ClassesText(cs: seq<ClassInterface>): string
  {
    if cs == [] then "" else ClassesText(cs[..|cs| - 1]) + ClassText(cs[|cs| - 1])
  }

  function FunctionsText(fs: seq<FunctionSig>): string
  {
    if fs == [] then ""
    else FunctionsText(fs[..|fs| - 1]) + CommentLine(fs[|fs| - 1].comment) + fs[|fs| - 1].signature + "\n\n"
  }

  /** "namespace N {" and a blank line. */
  function OpenLine(n: Namespace): string { "namespace " + n.name + " " + "{" + "\n\n" }

  /** "} // namespace N". */
  function CloseLine(n: Namespace): string { "}" + " // namespace " + n.name + "\n" }

  function Opens(ns: seq<Namespace>): string
  {
    if ns == [] then "" else Opens(ns[..|ns| - 1]) + OpenLine(ns[|ns| - 1])
  }

  function Closes(ns: seq<Namespace>): string
  {
    if ns == [] then "" else Closes(ns[..|ns| - 1]) + CloseLine(ns[|ns| - 1])
  }

  function Prelude(filepath: string, lang: Lang): string
  {
    "#pragma once\n\n" + "// Extracted interface from: " + filepath + "\n" + "// Language: " + ToString(lang) + "\n\n"
  }

  /** The header text: the prelude, the C++ namespaces opened, the
      classes, the free functions, the namespaces closed. */
  function Header(d: Interface, filepath: string, lang: Lang): string
  {
    Prelude(filepath, lang) + (if lang == CPP then Opens(d.namespaces) else "")
    + ClassesText(d.classes) + FunctionsText(d.functions)
    + (if lang == CPP then Closes(d.namespaces) else "")
  }

  /** The fixed parts of the namespace lines hold no brace beyond the
      one each line is for. */
  lemma NamespaceWordCounts(c: char)
    requires c == '{' || c == '}'
    ensures CountChar("namespace ", c) == 0
  {
    NoCharCount("namespace ", c);
  }

  lemma CloseCommentCounts(c: char)
    requires c == '{' || c == '}'
    ensures CountChar(" // namespace ", c) == 0
  {
    NoCharCount(" // namespace ", c);
  }

  lemma BraceCounts()
    ensures CountChar("{", '{') == 1 && CountChar("{", '}') == 0
    ensures CountChar("}", '{') == 0 && CountChar("}", '}') == 1
  {
  }

  lemma SpacingCounts()
    ensures CountChar(" ", '{') == 0 && CountChar(" ", '}') == 0
    ensures CountChar("\n", '{') == 0 && CountChar("\n", '}') == 0
    ensures CountChar("\n\n", '{') == 0 && CountChar("\n\n", '}') == 0
  {
  }

  /** Appending a piece adds its count. */
  lemma OpenLineCount(n: Namespace, c: char)
    ensures CountChar(OpenLine(n), c)
         == CountChar("namespace ", c) + CountChar(n.name, c) + CountChar(" ", c) + CountChar("{", c)
            + CountChar("\n\n", c)
  {
    var a := "namespace " + n.name;
    var b := a + " ";
    var d := b + "{";
    CountCharAppend("namespace ", n.name, c);
    CountCharAppend(a, " ", c);
    CountCharAppend(b, "{", c);
    CountCharAppend(d, "\n\n", c);
  }

  lemma CloseLineCount(n: Namespace, c: char)
    ensures CountChar(CloseLine(n), c)
         == CountChar("}", c) + CountChar(" // namespace ", c) + CountChar(n.name, c) + CountChar("\n", c)
  {
    var a := "}" + " // namespace ";
    var b := a + n.name;
    CountCharAppend("}", " // namespace ", c);
    CountCharAppend(a, n.name, c);
    CountCharAppend(b, "\n", c);
  }

  /** An opening line holds its own "{" and the braces of the name. */
  lemma OpenLineBraces(n: Namespace)
    ensures CountChar(OpenLine(n), '{') == 1 + CountChar(n.name, '{')
    ensures CountChar(OpenLine(n), '}') == CountChar(n.name, '}')
  {
    OpenLineCount(n, '{');
    OpenLineCount(n, '}');
    NamespaceWordCounts('{');
    NamespaceWordCounts('}');
    BraceCounts();
    SpacingCounts();
  }

  /** A closing line holds its own "}" and the braces of the name. */
  lemma CloseLineBraces(n: Namespace)
    ensures CountChar(CloseLine(n), '{') == CountChar(n.name, '{')
    ensures CountChar(CloseLine(n), '}') == 1 + CountChar(n.name, '}')
  {
    CloseLineCount(n, '{');
    CloseLineCount(n, '}');
    CloseCommentCounts('{');
    CloseCommentCounts('}');
    BraceCounts();
    SpacingCounts();
  }

  /** The header opens as many namespaces as it closes: with names free
      of braces, the openings hold one "{" per namespace and no "}", the
      closings one "}" per namespace and no "{". */
  lemma {:induction false} NamespacesBalanced(ns: seq<Namespace>)
    requires forall k :: 0 <= k < |ns| ==> CountChar(ns[k].name, '{') == 0 && CountChar(ns[k].name, '}') == 0
    ensures CountChar(Opens(ns), '{') == |ns| && CountChar(Opens(ns), '}') == 0
    ensures CountChar(Closes(ns), '}') == |ns| && CountChar(Closes(ns), '{') == 0
  {
    if ns != [] {
      var init := ns[..|ns| - 1];
      var last := ns[|ns| - 1];
      NamespacesBalanced(init);
      OpenLineBraces(last);
      CloseLineBraces(last);
      CountCharAppend(Opens(init), OpenLine(last), '{');
      CountCharAppend(Opens(init), OpenLine(last), '}');
      CountCharAppend(Closes(init), CloseLine(last), '{');
      CountCharAppend(Closes(init), CloseLine(last), '}');
    }
  }

  /** One step of the grouping loops: the label when the access
      changes, then the entry's line. */
  lemma GroupedStep(es: seq<Listing>, i: nat)
    requires i < |es|
    ensures Grouped(es[..i + 1]) == Grouped(es[..i]) + Piece(LastAccess(es[..i]), es[i])
    ensures LastAccess(es[..i + 1]) == es[i].access
  {
    assert es[..i + 1] == es[..i] + [es[i]];
    GroupedNext(es[..i], es[i]);
  }

  function ClassListings(c: ClassInterface): seq<Listing>
  {
    MethodEntries(c.methods) + FieldEntries(c.members)
  }

  lemma ListingsLength(c: ClassInterface)
    ensures |ClassListings(c)| == |c.methods| + |c.members|
  {
  }

  lemma MethodListingAt(c: ClassInterface, k: nat)
    requires k < |c.methods|
    ensures ClassListings(c)[k] == Listing(OrDefault(c.methods[k].access, "public"), "    " + c.methods[k].signature + "\n")
  {
  }

  lemma FieldListingAt(c: ClassInterface, j: nat)
    requires j < |c.members|
    ensures |c.methods| + j < |ClassListings(c)|
    ensures ClassListings(c)[|c.methods| + j] == FieldListing(c.members[j])
  {
  }

  /** What the header gets for one method or field: its access label
      when the access differs from the current one, then its line. */
  method AppendListing(ghost es: seq<Listing>, ghost i: nat, body: string, current: string, access: string, line: string)
    returns (body': string, current': string)
    requires i < |es| && es[i] == Listing(access, line)
    requires body == Grouped(es[..i]) && current == LastAccess(es[..i])
    ensures body' == Grouped(es[..i + 1]) && current' == LastAccess(es[..i + 1])
  {
    GroupedStep(es, i);
    body', current' := body, current;
    if access != current {
      body' := body' + (access + ":\n");
      current' := access;
    }
    body' := body' + line;
  }

  /** The loop over the methods, from no current access. */
  method GroupMethods(c: ClassInterface) returns (body: string, current: string)
    ensures body == Grouped(ClassListings(c)[..|c.methods|])
    ensures current == LastAccess(ClassListings(c)[..|c.methods|])
  {
    body, current := "", "";
    var i := 0;
    while i < |c.methods|
      invariant 0 <= i <= |c.methods|
      invariant body == Grouped(ClassListings(c)[..i]) && current == LastAccess(ClassListings(c)[..i])
    {
      var m := c.methods[i];
      MethodListingAt(c, i);
      body, current := AppendListing(ClassListings(c), i, body, current, OrDefault(m.access, "public"), "    " + m.signature + "\n");
      i := i + 1;
    }
  }

  /** `es` lists the class's fields, after `|c.methods|` other entries. */
  ghost predicate FieldsListed(es: seq<Listing>, c: ClassInterface)
  {
    |es| == |c.methods| + |c.members|
    && forall j :: 0 <= j < |c.members| ==> es[|c.methods| + j] == FieldListing(c.members[j])
  }

  lemma ClassFieldsListed(c: ClassInterface)
    ensures FieldsListed(ClassListings(c), c)
  {
    forall j | 0 <= j < |c.members|
      ensures ClassListings(c)[|c.methods| + j] == FieldListing(c.members[j])
    {
      FieldListingAt(c, j);
    }
  }

  /** The grouping loops' state after the first `k` entries. */
  ghost predicate GroupedUpTo(es: seq<Listing>, k: nat, body: string, current: string)
  {
    k <= |es| && body == Grouped(es[..k]) && current == LastAccess(es[..k])
  }

  /** One field of the loop below: its label when the access changes,
      then its line. */
  method AppendField(ghost es: seq<Listing>, c: ClassInterface, j: nat, body: string, current: string)
    returns (body': string, current': string)
    requires FieldsListed(es, c) && j < |c.members|
    requires GroupedUpTo(es, |c.methods| + j, body, current)
    ensures GroupedUpTo(es, |c.methods| + j + 1, body', current')
  {
    var f := c.members[j];
    body', current' := AppendListing(es, |c.methods| + j, body, current,
                                     OrDefault(f.access, "private"), "    " + f.declaration + ";\n");
  }

  /** The loop over the fields, continuing from the methods' grouping. */
  method GroupFields(ghost es: seq<Listing>, c: ClassInterface, body0: string, current0: string)
    returns (body: string)
    requires FieldsListed(es, c)
    requires GroupedUpTo(es, |c.methods|, body0, current0)
    ensures body == Grouped(es)
  {
    var current := current0;
    body := body0;
    var j := 0;
    while j < |c.members|
      invariant 0 <= j <= |c.members|
      invariant GroupedUpTo(es, |c.methods| + j, body, current)
    {
      body, current := AppendField(es, c, j, body, current);
      j := j + 1;
    }
    TakeAll(es, |c.methods| + j);
  }

  lemma TakeAll<T>(s: seq<T>, n: nat)
    requires n == |s|
    ensures s[..n] == s
  {
  }

  /** The class block: the head, the methods and then the fields
      grouped under access labels, and the closing line. */
  method ClassBlock(c: ClassInterface) returns (text: string)
    ensures text == ClassText(c)
  {
    var body, current := GroupMethods(c);
    ClassFieldsListed(c);
    ListingsLength(c);
    body := GroupFields(ClassListings(c), c, body, current);
    text := ClassHead(c) + body + "};\n\n";
  }

  method RenderOpens(ns: seq<Namespace>) returns (text: string)
    ensures text == Opens(ns)
  {
    text := "";
    var k := 0;
    while k < |ns|
      invariant 0 <= k <= |ns|
      invariant text == Opens(ns[..k])
    {
      assert ns[..k + 1][..k] == ns[..k];
      text := text + OpenLine(ns[k]);
      k := k + 1;
    }
    assert ns[..k] == ns;
  }

  method RenderCloses(ns: seq<Namespace>) returns (text: string)
    ensures text == Closes(ns)
  {
    text := "";
    var k := 0;
    while k < |ns|
      invariant 0 <= k <= |ns|
      invariant text == Closes(ns[..k])
    {
      assert ns[..k + 1][..k] == ns[..k];
      text := text + CloseLine(ns[k]);
      k := k + 1;
    }
    assert ns[..k] == ns;
  }

  method RenderClasses(cs: seq<ClassInterface>) returns (text: string)
    ensures text == ClassesText(cs)
  {
    text := "";
    var i := 0;
    while i < |cs|
      invariant 0 <= i <= |cs|
      invariant text == ClassesText(cs[..i])
    {
      assert cs[..i + 1][..i] == cs[..i];
      var block := ClassBlock(cs[i]);
      text := text + block;
      i := i + 1;
    }
    assert cs[..i] == cs;
  }

  method RenderFunctions(fs: seq<FunctionSig>) returns (text: string)
    ensures text == FunctionsText(fs)
  {
    text := "";
    var j := 0;
    while j < |fs|
      invariant 0 <= j <= |fs|
      invariant text == FunctionsText(fs[..j])
    {
      assert fs[..j + 1][..j] == fs[..j];
      var f := fs[j];
      text := text + CommentLine(f.comment) + f.signature + "\n\n";
      j := j + 1;
    }
    assert fs[..j] == fs;
  }

  method FormatHeader(d: Interface, filepath: string, lang: Lang) returns (text: string)
    ensures text == Header(d, filepath, lang)
  {
    var opens := "";
    if lang == CPP {
      opens := RenderOpens(d.namespaces);
    }
    var classes := RenderClasses(d.classes);
    var functions := RenderFunctions(d.functions);
    var closes := "";
    if lang == CPP {
      closes := RenderCloses(d.namespaces);
    }
    text := Prelude(filepath, lang) + opens + classes + functions + closes;
  }

  // ---------------------------------------------------------------------
  // format_as_json and execute

  /** format_as_json: the interface with its path, success and counts;
      the namespace count is reported for C++ only. */
  datatype JsonResult = JsonResult(
    filepath: string,
    data: Interface,
    totalFunctions: nat,
    totalClasses: nat,
    totalNamespaces: Option<nat>)

  function AsJson(d: Interface, filepath: string, lang: Lang): (r: JsonResult)
    ensures r.data == d && r.filepath == filepath
    ensures r.totalFunctions == |d.functions| && r.totalClasses == |d.classes|
    ensures r.totalNamespaces.Some? <==> lang == CPP
  {
    JsonResult(filepath, d, |d.functions|, |d.classes|,
               if lang == CPP then Some(|d.namespaces|) else None)
  }

  /** The filepath argument: a string, an array of strings, or anything
      else. */
  datatype PathArg = PathString(path: string) | PathArray(paths: seq<string>) | PathOther

  datatype Args = Args(
    filepath: Option<PathArg>,
    includePrivate: Option<bool>,
    includeComments: Option<bool>,
    outputFormat: Option<string>,
    recursive: Option<bool>,
    filePatterns: Option<seq<string>>)

  const DefaultPatterns: seq<string> := ["*.cpp", "*.hpp", "*.h", "*.cc", "*.cxx", "*.py"]

  function Patterns(a: Args): seq<string>
  {
    OrDefault(a.filePatterns, DefaultPatterns)
  }

  function InputPaths(p: PathArg): seq<string>
  {
    match p
    case PathString(s) => [s]
    case PathArray(ps) => ps
    case PathOther => []
  }

  const MissingFilepath := "Missing required parameter: filepath"
  const BadFilepath := "filepath must be a string or array of strings"
  const NothingResolved := "No files found matching the specified paths"
  const UnsupportedType := "Unsupported file type"

  function InvalidFormat(fmt: string): string { "Invalid output_format: " + fmt }

  /** The format error is told apart from the argument errors by its
      first letter. */
  lemma InvalidFormatDistinct(fmt: string)
    ensures InvalidFormat(fmt) != MissingFilepath
    ensures InvalidFormat(fmt) != NothingResolved
  {
    assert InvalidFormat(fmt)[0] == 'I';
    assert MissingFilepath[0] == 'M' && NothingResolved[0] == 'N';
  }

  /** One entry of a batch: the file's JSON interface, or its error. */
  datatype FileResult = Extracted(result: JsonResult) | FileError(filepath: string, error: string)

  datatype Outcome =
    | Failure(error: string)
    | Unsupported(filepath: string)
    | FileFailure(filepath: string, error: string)
    | Json(result: JsonResult)
    | HeaderDoc(filepath: string, content: string)
    | MarkdownDoc(filepath: string, data: Interface)
    | Batch(totalFiles: nat, processedFiles: nat, failedFiles: nat, outputFormat: string, results: seq<FileResult>)

  /** The files execute works on, in the order the path resolver yields. */
  function ResolvedFiles(fs: FS, a: Args, canonical: string -> string): seq<string>
    requires a.filepath.Some? && AllPlain(Patterns(a))
  {
    InOrder(Resolved(fs, InputPaths(a.filepath.value), OrDefault(a.recursive, true), Patterns(a), canonical), ComparePaths)
  }

  /** The outcome for a single resolved file: an unknown language, a
      failed extraction, the three formats, or an invalid format. */
  function SingleOutcome(fs: FS, path: string, a: Args, parse: ASTAnalyzer.Parser, find: Finder): (r: Outcome)
    ensures r.Unsupported? <==> DetectFromExtension(path) == UNKNOWN
    ensures r.Failure? <==>
      && DetectFromExtension(path) != UNKNOWN
      && FileInterface(fs, path, OrDefault(a.includePrivate, false), OrDefault(a.includeComments, true),
                       DetectFromExtension(path), parse, find).Ok?
      && OrDefault(a.outputFormat, "json") !in {"json", "header", "markdown"}
    ensures r.Failure? ==> r.error == InvalidFormat(OrDefault(a.outputFormat, "json"))
  {
    var lang := DetectFromExtension(path);
    var fmt := OrDefault(a.outputFormat, "json");
    if lang == UNKNOWN then Unsupported(path)
    else match FileInterface(fs, path, OrDefault(a.includePrivate, false), OrDefault(a.includeComments, true), lang, parse, find)
      case Err(e) => FileFailure(path, e)
      case Ok(d) =>
        if fmt == "json" then Json(AsJson(d, path, lang))
        else if fmt == "header" then HeaderDoc(path, Header(d, path, lang))
        else if fmt == "markdown" then MarkdownDoc(path, d)
        else Failure(InvalidFormat(fmt))
  }

  /** The entry names the file it reports on. */
  predicate About(r: FileResult, path: string)
  {
    match r
    case FileError(p, _) => p == path
    case Extracted(j) => j.filepath == path
  }

  /** A batch entry: only JSON is produced for several files. */
  function BatchEntry(fs: FS, path: string, a: Args, parse: ASTAnalyzer.Parser, find: Finder): (r: FileResult)
    ensures About(r, path)
    ensures DetectFromExtension(path) == UNKNOWN ==> r == FileError(path, UnsupportedType)
  {
    var lang := DetectFromExtension(path);
    if lang == UNKNOWN then FileError(path, UnsupportedType)
    else match FileInterface(fs, path, OrDefault(a.includePrivate, false), OrDefault(a.includeComments, true), lang, parse, find)
      case Err(e) => FileError(path, e)
      case Ok(d) => Extracted(AsJson(d, path, lang))
  }

  function BatchEntries(fs: FS, files: seq<string>, a: Args, parse: ASTAnalyzer.Parser, find: Finder): (r: seq<FileResult>)
    ensures |r| == |files|
    ensures forall k :: 0 <= k < |files| ==> About(r[k], files[k])
  {
    MapSeq(path => BatchEntry(fs, path, a, parse, find), files)
  }

  /** How many entries are errors. */
  function Errors(rs: seq<FileResult>): (n: nat)
    ensures n <= |rs|
  {
    if rs == [] then 0 else Errors(rs[..|rs| - 1]) + if rs[|rs| - 1].FileError? then 1 else 0
  }

  method ProcessBatchEntry(fs: FS, path: string, a: Args, parse: ASTAnalyzer.Parser, find: Finder)
    returns (entry: FileResult)
    ensures entry == BatchEntry(fs, path, a, parse, find)
  {
    var lang := DetectFromExtension(path);
    if lang == UNKNOWN {
      return FileError(path, UnsupportedType);
    }
    var r := ExtractFromFile(fs, path, OrDefault(a.includePrivate, false), OrDefault(a.includeComments, true),
                             lang, parse, find);
    if r.Err? {
      entry := FileError(path, r.error);
    } else {
      entry := Extracted(AsJson(r.value, path, lang));
    }
  }

  /** One file of the batch: its entry appended and one counter bumped. */
  method BatchStep(fs: FS, files: seq<string>, i: nat, a: Args, parse: ASTAnalyzer.Parser, find: Finder,
                   results: seq<FileResult>, processed: nat, failed: nat)
    returns (results': seq<FileResult>, processed': nat, failed': nat)
    requires i < |files|
    requires results == BatchEntries(fs, files[..i], a, parse, find)
    requires failed == Errors(results) && processed + failed == i
    ensures results' == BatchEntries(fs, files[..i + 1], a, parse, find)
    ensures failed' == Errors(results') && processed' + failed' == i + 1
  {
    var entry := ProcessBatchEntry(fs, files[i], a, parse, find);
    MapSeqNext(path => BatchEntry(fs, path, a, parse, find), files, i);
    results' := results + [entry];
    assert results'[..|results|] == results;
    if entry.FileError? {
      processed', failed' := processed, failed + 1;
    } else {
      processed', failed' := processed + 1, failed;
    }
  }

  /** The batch loop with its success and failure counters. */
  method ProcessBatch(fs: FS, files: seq<string>, a: Args, parse: ASTAnalyzer.Parser, find: Finder)
    returns (results: seq<FileResult>, processed: nat, failed: nat)
    ensures results == BatchEntries(fs, files, a, parse, find)
    ensures failed == Errors(results)
    ensures processed + failed == |files|
  {
    results := [];
    processed, failed := 0, 0;
    var i := 0;
    while i < |files|
      invariant 0 <= i <= |files|
      invariant results == BatchEntries(fs, files[..i], a, parse, find)
      invariant failed == Errors(results)
      invariant processed + failed == i
    {
      results, processed, failed := BatchStep(fs, files, i, a, parse, find, results, processed, failed);
      i := i + 1;
    }
    assert files[..i] == files;
  }

  method ProcessSingle(fs: FS, path: string, a: Args, parse: ASTAnalyzer.Parser, find: Finder)
    returns (out: Outcome)
    ensures out == SingleOutcome(fs, path, a, parse, find)
  {
    var lang := DetectFromExtension(path);
    if lang == UNKNOWN {
      return Unsupported(path);
    }
    var fmt := OrDefault(a.outputFormat, "json");
    var r := ExtractFromFile(fs, path, OrDefault(a.includePrivate, false), OrDefault(a.includeComments, true),
                             lang, parse, find);
    if r.Err? {
      return FileFailure(path, r.error);
    }
    if fmt == "json" {
      out := Json(AsJson(r.value, path, lang));
    } else if fmt == "header" {
      var text := FormatHeader(r.value, path, lang);
      out := HeaderDoc(path, text);
    } else if fmt == "markdown" {
      out := MarkdownDoc(path, r.value);
    } else {
      out := Failure(InvalidFormat(fmt));
    }
  }

  /** execute: the argument errors in the order they are checked, one
      file handled in the requested format, several files as a JSON
      batch whose counters add up. */
  method Execute(fs: FS, a: Args, parse: ASTAnalyzer.Parser, find: Finder, canonical: string -> string)
    returns (out: Outcome)
    requires AllPlain(Patterns(a))
    ensures a.filepath.None? <==> out == Failure(MissingFilepath)
    ensures a.filepath == Some(PathOther) ==> out == Failure(BadFilepath)
    ensures a.filepath.Some? && a.filepath != Some(PathOther) ==>
      var files := ResolvedFiles(fs, a, canonical);
      && (files == [] <==> out == Failure(NothingResolved))
      && (|files| == 1 ==> out == SingleOutcome(fs, files[0], a, parse, find))
      && (|files| > 1 ==>
            && out.Batch?
            && out.results == BatchEntries(fs, files, a, parse, find)
            && out.totalFiles == |files| == |out.results|
            && out.failedFiles == Errors(out.results)
            && out.processedFiles + out.failedFiles == out.totalFiles
            && out.outputFormat == OrDefault(a.outputFormat, "json"))
  {
    if a.filepath.None? {
      return Failure(MissingFilepath);
    }
    var fmt := OrDefault(a.outputFormat, "json");
    var recursive := OrDefault(a.recursive, true);
    var patterns := Patterns(a);
    if a.filepath == Some(PathOther) {
      return Failure(BadFilepath);
    }
    var paths := InputPaths(a.filepath.value);
    var resolved := ResolvePaths(fs, paths, recursive, patterns, canonical);
    ghost var found := Resolved(fs, paths, recursive, patterns, canonical);
    InOrderSorted(found, ComparePaths);
    SortedUnique(resolved, InOrder(found, ComparePaths), ComparePaths);
    if resolved == [] {
      return Failure(NothingResolved);
    }
    if |resolved| == 1 {
      InvalidFormatDistinct(fmt);
      out := ProcessSingle(fs, resolved[0], a, parse, find);
      return;
    }
    var results, processed, failed := ProcessBatch(fs, resolved, a, parse, find);
    out := Batch(|resolved|, processed, failed, fmt, results);
  }
}
