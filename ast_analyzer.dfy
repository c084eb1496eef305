/** ASTAnalyzer: language detection with the C++ default, the per-file
    parse cache (path -> tree, source, mtime, language) with its strict
    validity rule, the per-file analyses built on the query catalogue,
    and the batch aggregators with their counters.

    Parsing and query matching are done by tree-sitter; here they are
    the parameters `parse` (None when the parser returns no tree) and
    `matcher` (None when the query does not compile). */
module ASTAnalyzer {
  import opened Text
  import opened Syntax
  import opened Language
  import opened QueryEngine
  import opened FileSystem

  /** detect_language: the override when given; otherwise the detected
      language, with UNKNOWN replaced by CPP. */
  function DetectLanguage(path: string, langOverride: Option<Lang>): (r: Lang)
    ensures langOverride.Some? ==> r == langOverride.value
    ensures langOverride.None? ==> r != UNKNOWN
    ensures langOverride.None? && DetectFromExtension(path) != UNKNOWN ==> r == DetectFromExtension(path)
    ensures langOverride.None? && DetectFromExtension(path) == UNKNOWN ==> r == CPP
  {
    if langOverride.Some? then langOverride.value
    else
      var detected := DetectFromExtension(path);
      if detected == UNKNOWN then CPP else detected
  }

  datatype CachedFile = CachedFile(tree: Node, source: string, mtime: int, language: Lang)

  /** The (tree, source, language) triple get_or_parse_file hands out. */
  datatype Parsed = Parsed(tree: Node, source: string, language: Lang)

  /** What get_or_parse_file does: returns a triple, returns nullopt, or
      lets the exception of the parser constructor escape. */
  datatype Fetch = Got(parsed: Parsed) | Failed | Threw(message: string)

  type Cache = map<string, CachedFile>

  type Parser = (Lang, string) -> Option<Node>

  /** is_cache_valid: same language and exactly the same modification
      time as the file has now; false when the time cannot be read. */
  predicate IsCacheValid(fs: FS, path: string, cached: CachedFile, lang: Lang)
  {
    cached.language == lang && LastWriteTime(fs, path) == Some(cached.mtime)
  }

  function AsParsed(c: CachedFile): Parsed
  {
    Parsed(c.tree, c.source, c.language)
  }

  /** The outcome of get_or_parse_file and the cache it leaves behind. */
  function FetchSpec(fs: FS, cache: Cache, path: string, lang: Lang, parse: Parser): (Fetch, Cache)
  {
    if !Exists(fs, path) || LastWriteTime(fs, path).None? then (Failed, cache)
    else if path in cache && IsCacheValid(fs, path, cache[path], lang) then (Got(AsParsed(cache[path])), cache)
    else
      var erased := cache - {path};
      var contents := ReadFile(fs, path);
      if contents.None? then (Failed, erased)
      else if lang == UNKNOWN then (Threw("Unsupported language: " + ToString(lang)), erased)
      else match parse(lang, contents.value)
        case None => (Failed, erased)
        case Some(tree) =>
          (Got(Parsed(tree, contents.value, lang)),
           erased[path := CachedFile(tree, contents.value, LastWriteTime(fs, path).value, lang)])
  }

  class Analyzer {
    /** cache_, keyed by path. */
    var cache: Cache
    /** The languages parsers_ holds a parser for. */
    var parsers: set<Lang>

    constructor()
      ensures cache == map[] && parsers == {}
    {
      cache := map[];
      parsers := {};
    }

    /** cache_size. */
    function CacheSize(): (n: nat)
      reads this
      ensures n == |cache.Keys|
    {
      |cache|
    }

    /** clear_cache: the parse cache is emptied; parsers are kept. */
    method ClearCache()
      modifies this
      ensures cache == map[] && parsers == old(parsers)
    {
      cache := map[];
    }

    /** get_parser_for_language: creates the parser on first use; no
        parser can be made for UNKNOWN (the constructor throws). */
    method GetParserForLanguage(lang: Lang) returns (ok: bool)
      modifies this
      ensures ok <==> lang != UNKNOWN
      ensures parsers == old(parsers) + (if ok then {lang} else {})
      ensures cache == old(cache)
    {
      if lang == UNKNOWN {
        ok := false;
        return;
      }
      if lang in parsers {
        ok := true;
        return;
      }
      parsers := parsers + {lang};
      ok := true;
    }

    /** get_or_parse_file. */
    method GetOrParseFile(fs: FS, path: string, lang: Lang, parse: Parser) returns (r: Fetch)
      modifies this
      ensures (r, cache) == FetchSpec(fs, old(cache), path, lang, parse)
      ensures parsers == old(parsers) || parsers == old(parsers) + {lang}
      ensures UNKNOWN in parsers ==> UNKNOWN in old(parsers)
    {
      if !Exists(fs, path) {
        return Failed;
      }
      var mtime := LastWriteTime(fs, path);
      if mtime.None? {
        return Failed;
      }
      if path in cache {
        if IsCacheValid(fs, path, cache[path], lang) {
          return Got(AsParsed(cache[path]));
        } else {
          cache := cache - {path};
        }
      } else {
        assert cache == old(cache) - {path};
      }
      var contents := ReadFile(fs, path);
      if contents.None? {
        return Failed;
      }
      var ok := GetParserForLanguage(lang);
      if !ok {
        return Threw("Unsupported language: " + ToString(lang));
      }
      var tree := parse(lang, contents.value);
      if tree.None? {
        return Failed;
      }
      cache := cache[path := CachedFile(tree.value, contents.value, mtime.value, lang)];
      r := Got(Parsed(tree.value, contents.value, lang));
    }

    /** One per-file analysis: analyze_file, find_classes,
        find_functions, find_includes or execute_query. */
    method RunFileOp(fs: FS, path: string, op: Op, langOverride: Option<Lang>, parse: Parser, matcher: Matcher)
      returns (res: FileOutcome)
      modifies this
      ensures var lang := DetectLanguage(path, langOverride);
              (res, cache) == (OpOutcome(op, path, lang, FetchSpec(fs, old(cache), path, lang, parse).0, matcher),
                               FetchSpec(fs, old(cache), path, lang, parse).1)
    {
      var lang := DetectLanguage(path, langOverride);
      var fetch := GetOrParseFile(fs, path, lang, parse);
      res := RunOnFetched(op, path, lang, fetch, matcher);
    }

    /** One iteration of a batch loop: the per-file call with the file
        path written into its result, or the caught exception as a failed
        result. */
    method RunCaught(fs: FS, file: string, op: Op, parse: Parser, matcher: Matcher) returns (result: FileResult)
      modifies this
      ensures (result, cache) == BatchFile(fs, old(cache), file, op, parse, matcher)
      ensures result.filepath == file
    {
      var outcome := RunFileOp(fs, file, op, None, parse, matcher);
      match outcome
      case Raised(msg) =>
        result := FileResult(file, None, false, msg, NoReport);
      case Done(r) =>
        result := r.(filepath := file);
    }

    /** One file of a batch loop: its result appended, the failure
        counted. */
    method BatchStep(fs: FS, files: seq<string>, k: nat, op: Op, parse: Parser, matcher: Matcher,
                     ghost start: Cache, results: seq<FileResult>, failed: nat)
      returns (results': seq<FileResult>, failed': nat)
      modifies this
      requires k < |files|
      requires (results, cache) == BatchSpec(fs, start, files[..k], op, parse, matcher)
      requires failed == CountFailed(results)
      ensures (results', cache) == BatchSpec(fs, start, files[..k + 1], op, parse, matcher)
      ensures failed' == CountFailed(results')
    {
      var result := RunCaught(fs, files[k], op, parse, matcher);
      BatchSpecNext(fs, start, files, k, op, parse, matcher);
      failed' := failed;
      if !result.success {
        failed' := failed + 1;
      }
      CountFailedAppend(results, result);
      results' := results + [result];
    }

    /** analyze_files, find_classes_in_files, find_functions_in_files and
        execute_query_on_files: one result per input, in input order, each
        computed with the cache the earlier files left, and the counters. */
    method RunBatch(fs: FS, files: seq<string>, op: Op, parse: Parser, matcher: Matcher)
      returns (b: BatchSummary)
      modifies this
      ensures (b.results, cache) == BatchSpec(fs, old(cache), files, op, parse, matcher)
      ensures |b.results| == |files| && b.total == |files|
      ensures forall i :: 0 <= i < |files| ==> b.results[i].filepath == files[i]
      ensures b.failed == CountFailed(b.results)
      ensures b.processed == b.total - b.failed
      ensures b.success <==> b.failed == 0
    {
      var results: seq<FileResult> := [];
      var failed := 0;
      var k := 0;
      while k < |files|
        invariant 0 <= k <= |files|
        invariant (results, cache) == BatchSpec(fs, old(cache), files[..k], op, parse, matcher)
        invariant failed == CountFailed(results)
      {
        results, failed := BatchStep(fs, files, k, op, parse, matcher, old(cache), results, failed);
        k := k + 1;
      }
      assert files[..k] == files;
      forall i | 0 <= i < |files|
        ensures results[i].filepath == files[i]
      {
        BatchPath(fs, old(cache), files, op, parse, matcher, i);
      }
      CountFailedBound(results);
      b := BatchSummary(failed == 0, |files|, |files| - failed, failed, results);
    }
  }

  /** The result a batch records for one file: the per-file result under
      the file's own path, or the message of the caught exception as a
      failure without a language. */
  function Caught(outcome: FileOutcome, file: string): (r: FileResult)
    ensures r.filepath == file
    ensures r.success <==> outcome.Done? && outcome.result.success
    ensures outcome.Raised? ==> r.error == outcome.message && r.language == None
  {
    match outcome
    case Raised(msg) => FileResult(file, None, false, msg, NoReport)
    case Done(r) => r.(filepath := file)
  }

  /** One file of a batch, with the language detected from its path: the
      result recorded and the cache left behind. */
  function BatchFile(fs: FS, cache: Cache, file: string, op: Op, parse: Parser, matcher: Matcher): (r: (FileResult, Cache))
    ensures r.0.filepath == file
  {
    var lang := DetectLanguage(file, None);
    var f := FetchSpec(fs, cache, file, lang, parse);
    (Caught(OpOutcome(op, file, lang, f.0, matcher), file), f.1)
  }

  /** A batch: the results in input order, each computed with the cache
      the files before it left behind, and the final cache. */
  function BatchSpec(fs: FS, cache: Cache, files: seq<string>, op: Op, parse: Parser, matcher: Matcher)
    : (r: (seq<FileResult>, Cache))
    ensures |r.0| == |files|
  {
    if files == [] then ([], cache)
    else
      var before := BatchSpec(fs, cache, files[..|files| - 1], op, parse, matcher);
      var last := BatchFile(fs, before.1, files[|files| - 1], op, parse, matcher);
      (before.0 + [last.0], last.1)
  }

  lemma BatchSpecNext(fs: FS, cache: Cache, files: seq<string>, k: nat, op: Op, parse: Parser, matcher: Matcher)
    requires k < |files|
    ensures var before := BatchSpec(fs, cache, files[..k], op, parse, matcher);
            var last := BatchFile(fs, before.1, files[k], op, parse, matcher);
            BatchSpec(fs, cache, files[..k + 1], op, parse, matcher) == (before.0 + [last.0], last.1)
  {
    assert files[..k + 1][..k] == files[..k];
  }

  /** The k-th result of a batch is about the k-th file. */
  lemma {:induction false} BatchPath(fs: FS, cache: Cache, files: seq<string>, op: Op, parse: Parser, matcher: Matcher, k: nat)
    requires k < |files|
    ensures BatchSpec(fs, cache, files, op, parse, matcher).0[k].filepath == files[k]
  {
    var init := files[..|files| - 1];
    var before := BatchSpec(fs, cache, init, op, parse, matcher);
    var last := BatchFile(fs, before.1, files[|files| - 1], op, parse, matcher);
    assert BatchSpec(fs, cache, files, op, parse, matcher).0 == before.0 + [last.0];
    if k < |files| - 1 {
      BatchPath(fs, cache, init, op, parse, matcher, k);
      assert (before.0 + [last.0])[k] == before.0[k];
    }
  }

  // ---------------------------------------------------------------------
  // Per-file results

  /** The analyses, by the predefined query they use (or the caller's
      query text). */
  datatype Op = Analyze | FindClasses | FindFunctions | FindIncludes | RunQuery(query: string)

  type Matcher = (Lang, string, Node, string) -> Option<seq<seq<Capture>>>

  datatype Report =
    | Analysis(classCount: nat, functionCount: nat, includeCount: nat)
    | Matches(items: seq<QueryMatch>)
    | NoReport

  datatype FileResult = FileResult(filepath: string, language: Option<Lang>, success: bool, error: string, report: Report)

  /** A per-file call either returns a result or throws. */
  datatype FileOutcome = Done(result: FileResult) | Raised(message: string)

  datatype BatchSummary = BatchSummary(success: bool, total: nat, processed: nat, failed: nat, results: seq<FileResult>)

  function QueryText(op: Op, lang: Lang): Option<string>
    requires !op.Analyze?
  {
    match op
    case FindClasses => GetPredefinedQuery(CLASSES, lang)
    case FindFunctions => GetPredefinedQuery(FUNCTIONS, lang)
    case FindIncludes => GetPredefinedQuery(INCLUDES, lang)
    case RunQuery(q) => Some(q)
  }

  function Unsupported(op: Op): string
  {
    match op
    case FindClasses => "Classes query not supported for this language"
    case FindFunctions => "Functions query not supported for this language"
    case _ => "Includes query not supported for this language"
  }

  function CaptureCount(t: QueryType, parsed: Parsed, matcher: Matcher): nat
  {
    match GetPredefinedQuery(t, parsed.language)
    case None => 0
    case Some(q) =>
      match matcher(parsed.language, q, parsed.tree, parsed.source)
      case None => 0
      case Some(ms) => |Flatten(ms, parsed.source)|
  }

  /** The counting step of analyze_file for one query type: 0 when the
      language has no such query or it fails to compile. */
  method CountCaptures(t: QueryType, parsed: Parsed, matcher: Matcher) returns (n: nat)
    ensures n == CaptureCount(t, parsed, matcher)
  {
    var query := GetPredefinedQuery(t, parsed.language);
    if query.None? {
      return 0;
    }
    var matches := matcher(parsed.language, query.value, parsed.tree, parsed.source);
    if matches.None? {
      return 0;
    }
    var items := Execute(matches.value, parsed.source);
    n := |items|;
  }

  /** The per-operation part of each per-file tool, once the file has
      been fetched. */
  method RunOnFetched(op: Op, path: string, lang: Lang, fetch: Fetch, matcher: Matcher) returns (res: FileOutcome)
    ensures res == OpOutcome(op, path, lang, fetch, matcher)
  {
    match fetch
    case Threw(msg) =>
      res := Raised(msg);
    case Failed =>
      res := Done(FileResult(path, Some(lang), false, "Failed to parse file", NoReport));
    case Got(parsed) =>
      if op.Analyze? {
        var classes := CountCaptures(CLASSES, parsed, matcher);
        var functions := CountCaptures(FUNCTIONS, parsed, matcher);
        var includes := CountCaptures(INCLUDES, parsed, matcher);
        res := Done(FileResult(path, Some(lang), true, "", Analysis(classes, functions, includes)));
      } else {
        var query := QueryText(op, parsed.language);
        if query.None? {
          res := Done(FileResult(path, Some(lang), false, Unsupported(op), NoReport));
        } else {
          var matches := matcher(parsed.language, query.value, parsed.tree, parsed.source);
          if matches.None? {
            res := Done(FileResult(path, Some(lang), false, "Failed to compile query", NoReport));
          } else {
            var items := Execute(matches.value, parsed.source);
            res := Done(FileResult(path, Some(lang), true, "", Matches(items)));
          }
        }
      }
  }

  /** The result of a per-file analysis given what get_or_parse_file did. */
  function OpOutcome(op: Op, path: string, lang: Lang, fetch: Fetch, matcher: Matcher): (r: FileOutcome)
    ensures fetch.Threw? <==> r.Raised?
    ensures r.Done? ==> r.result.filepath == path && r.result.language == Some(lang)
    ensures r.Done? ==> (r.result.success <==> r.result.error == [])
    ensures fetch.Failed? ==> r.result.error == "Failed to parse file"
    ensures op.Analyze? && fetch.Got? ==> r.result.success && r.result.report.Analysis?
    ensures !op.Analyze? && r.Done? && r.result.success ==> r.result.report.Matches?
  {
    match fetch
    case Threw(msg) => Raised(msg)
    case Failed => Done(FileResult(path, Some(lang), false, "Failed to parse file", NoReport))
    case Got(parsed) =>
      if op.Analyze? then
        Done(FileResult(path, Some(lang), true, "",
                        Analysis(CaptureCount(CLASSES, parsed, matcher),
                                 CaptureCount(FUNCTIONS, parsed, matcher),
                                 CaptureCount(INCLUDES, parsed, matcher))))
      else match QueryText(op, parsed.language)
        case None => Done(FileResult(path, Some(lang), false, Unsupported(op), NoReport))
        case Some(q) =>
          match matcher(parsed.language, q, parsed.tree, parsed.source)
          case None => Done(FileResult(path, Some(lang), false, "Failed to compile query", NoReport))
          case Some(ms) => Done(FileResult(path, Some(lang), true, "", Matches(Flatten(ms, parsed.source))))
  }

  /** Number of unsuccessful results. */
  function CountFailed(results: seq<FileResult>): nat
  {
    if results == [] then 0
    else CountFailed(results[..|results| - 1]) + (if results[|results| - 1].success then 0 else 1)
  }

  lemma CountFailedAppend(results: seq<FileResult>, r: FileResult)
    ensures CountFailed(results + [r]) == CountFailed(results) + (if r.success then 0 else 1)
  {
    assert (results + [r])[..|results|] == results;
  }

  lemma {:induction false} CountFailedBound(results: seq<FileResult>)
    ensures CountFailed(results) <= |results|
    ensures CountFailed(results) == 0 <==> forall i :: 0 <= i < |results| ==> results[i].success
  {
    if results != [] {
      CountFailedBound(results[..|results| - 1]);
    }
  }

  // ---------------------------------------------------------------------
  // Cache properties

  /** A valid entry is handed out as it is and the cache does not change. */
  lemma ValidEntryIsHit(fs: FS, cache: Cache, path: string, lang: Lang, parse: Parser)
    requires path in cache && IsCacheValid(fs, path, cache[path], lang) && Exists(fs, path)
    ensures FetchSpec(fs, cache, path, lang, parse) == (Got(AsParsed(cache[path])), cache)
    ensures AsParsed(cache[path]).language == lang
  {
  }

  /** A file that does not exist (or whose time cannot be read) fails and
      leaves the cache as it was. */
  lemma MissingFileUnchanged(fs: FS, cache: Cache, path: string, lang: Lang, parse: Parser)
    requires !Exists(fs, path) || LastWriteTime(fs, path).None?
    ensures FetchSpec(fs, cache, path, lang, parse) == (Failed, cache)
  {
  }

  /** After a success the path has exactly one entry, valid for the
      requested language and the current time, holding what was handed
      out; no other entry changes. */
  lemma SuccessLeavesValidEntry(fs: FS, cache: Cache, path: string, lang: Lang, parse: Parser)
    requires FetchSpec(fs, cache, path, lang, parse).0.Got?
    ensures var (r, c) := FetchSpec(fs, cache, path, lang, parse);
      path in c && IsCacheValid(fs, path, c[path], lang) && r.parsed == AsParsed(c[path])
      && c.Keys == cache.Keys + {path}
      && (forall p :: p in cache && p != path ==> c[p] == cache[p])
  {
  }

  /** If a stale entry was erased and reading or parsing then fails, the
      path is left with no entry at all. */
  lemma FailureAfterEraseLeavesNoEntry(fs: FS, cache: Cache, path: string, lang: Lang, parse: Parser)
    requires Exists(fs, path) && LastWriteTime(fs, path).Some?
    requires !FetchSpec(fs, cache, path, lang, parse).0.Got?
    ensures var (_, c) := FetchSpec(fs, cache, path, lang, parse);
      path !in c && c == cache - {path}
  {
  }

  /** Asking again for the same file and language right after a success
      is a hit that changes nothing. */
  lemma {:induction false} RepeatIsHit(fs: FS, cache: Cache, path: string, lang: Lang, parse: Parser)
    requires FetchSpec(fs, cache, path, lang, parse).0.Got?
    ensures var (r, c) := FetchSpec(fs, cache, path, lang, parse);
      FetchSpec(fs, c, path, lang, parse) == (r, c)
  {
    SuccessLeavesValidEntry(fs, cache, path, lang, parse);
  }

  /** Analysing one file twice from an empty cache: the cache holds one
      entry both times and the second analysis gives the same result. */
  lemma AnalyzeTwice(fs: FS, path: string, parse: Parser, matcher: Matcher)
    requires FetchSpec(fs, map[], path, DetectLanguage(path, None), parse).0.Got?
    ensures var lang := DetectLanguage(path, None);
      var (r1, c1) := FetchSpec(fs, map[], path, lang, parse);
      var (r2, c2) := FetchSpec(fs, c1, path, lang, parse);
      |c1| == 1 && c2 == c1
      && OpOutcome(Analyze, path, lang, r2, matcher) == OpOutcome(Analyze, path, lang, r1, matcher)
  {
    var lang := DetectLanguage(path, None);
    RepeatIsHit(fs, map[], path, lang, parse);
    SuccessLeavesValidEntry(fs, map[], path, lang, parse);
    var c1 := FetchSpec(fs, map[], path, lang, parse).1;
    assert c1.Keys == {path};
    assert |c1.Keys| == 1;
  }
}
