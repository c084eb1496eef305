/** PathResolver: glob matching on a file's base name, collection of
    matching files from directories, and the sorted, de-duplicated
    result of resolving a list of input paths. */
module PathResolver {
  import opened Text
  import opened FileSystem
  import Language
  import opened Ordering

  // ---------------------------------------------------------------------
  // Glob patterns

  /** The characters the regex wildcard '.' does not match. */
  predicate LineBreak(c: char)
  {
    c == '\n' || c == '\r'
  }

  /** Characters that would reach the regex unescaped and change its
      meaning; patterns holding them are outside this model. */
  const RegexSpecials: set<char> := {'\\', '^', '$', '+', '(', ')', '[', ']', '{', '}', '|'}

  predicate PlainPattern(p: string)
  {
    forall i :: 0 <= i < |p| ==> p[i] !in RegexSpecials
  }

  /** The language of the anchored regex matches_pattern builds: '*'
      (turned into ".*") matches any run of characters other than line
      breaks, '?' (turned into ".") exactly one such character, and every
      other character, '.' included (escaped as "\."), only itself. */
  predicate GlobMatch(p: string, s: string)
    decreases |p| + |s|
  {
    if p == [] then s == []
    else if p[0] == '*' then
      GlobMatch(p[1..], s) || (s != [] && !LineBreak(s[0]) && GlobMatch(p, s[1..]))
    else if p[0] == '?' then
      s != [] && !LineBreak(s[0]) && GlobMatch(p[1..], s[1..])
    else
      s != [] && s[0] == p[0] && GlobMatch(p[1..], s[1..])
  }

  /** matches_pattern: the whole file name, never the full path. */
  predicate MatchesPattern(path: string, pattern: string)
    requires PlainPattern(pattern)
  {
    GlobMatch(pattern, Language.FileName(path))
  }

  predicate AllPlain(patterns: seq<string>)
  {
    forall i :: 0 <= i < |patterns| ==> PlainPattern(patterns[i])
  }

  predicate MatchesAnyPattern(path: string, patterns: seq<string>)
    requires AllPlain(patterns)
  {
    exists i :: 0 <= i < |patterns| && MatchesPattern(path, patterns[i])
  }

  predicate NoLineBreak(s: string)
  {
    forall i :: 0 <= i < |s| ==> !LineBreak(s[i])
  }

  predicate NoWildcard(p: string)
  {
    forall i :: 0 <= i < |p| ==> p[i] != '*' && p[i] != '?'
  }

  /** "*" matches every name without line breaks, the empty one included. */
  lemma {:induction false} StarMatches(s: string)
    ensures GlobMatch("*", s) <==> NoLineBreak(s)
    decreases |s|
  {
    assert "*"[1..] == [];
    if s != [] {
      StarMatches(s[1..]);
    }
  }

  /** A pattern without wildcards matches exactly itself. */
  lemma {:induction false} LiteralMatchesItself(p: string, s: string)
    requires NoWildcard(p)
    ensures GlobMatch(p, s) <==> s == p
    decreases |p|
  {
    if p != [] {
      assert p[0] != '*' && p[0] != '?';
      if s != [] {
        LiteralMatchesItself(p[1..], s[1..]);
        if s[0] == p[0] && s[1..] == p[1..] {
          assert s == [s[0]] + s[1..];
          assert p == [p[0]] + p[1..];
        }
      }
    }
  }

  /** s ends in lit, and what comes before it holds no line break. */
  predicate EndsAfterRun(lit: string, s: string)
  {
    |s| >= |lit| && s[|s| - |lit|..] == lit && NoLineBreak(s[..|s| - |lit|])
  }

  /** "*" followed by a literal matches exactly the names that end in
      the literal after a run without line breaks ("*.cpp" matches
      "a.cpp" and ".cpp", never "a.cpp.bak"). */
  lemma {:induction false} StarLiteral(lit: string, s: string)
    requires NoWildcard(lit)
    ensures GlobMatch("*" + lit, s) <==> EndsAfterRun(lit, s)
    decreases |s|
  {
    StarStep(lit, s);
    LiteralMatchesItself(lit, s);
    if s == [] {
      assert s[..0] == [];
    } else {
      StarLiteral(lit, s[1..]);
      if |s| > |lit| {
        EndsAfterRunLonger(lit, s);
      } else if |s| == |lit| {
        EndsAfterRunEqual(lit, s);
      }
    }
  }

  /** One step of the leading "*": match the literal here, or skip one
      character that is not a line break. */
  lemma StarStep(lit: string, s: string)
    ensures GlobMatch("*" + lit, s) <==>
      GlobMatch(lit, s) || (s != [] && !LineBreak(s[0]) && GlobMatch("*" + lit, s[1..]))
  {
    var p := "*" + lit;
    assert p[0] == '*' && p[1..] == lit;
  }

  lemma EndsAfterRunLonger(lit: string, s: string)
    requires |s| > |lit|
    ensures s != lit
    ensures EndsAfterRun(lit, s) <==> !LineBreak(s[0]) && EndsAfterRun(lit, s[1..])
  {
    var t := s[1..];
    assert t[|t| - |lit|..] == s[|s| - |lit|..];
    assert s[..|s| - |lit|] == [s[0]] + t[..|t| - |lit|];
  }

  lemma EndsAfterRunEqual(lit: string, s: string)
    requires |s| == |lit| && s != []
    ensures EndsAfterRun(lit, s) <==> s == lit
    ensures !EndsAfterRun(lit, s[1..])
  {
    assert s[|s| - |lit|..] == s;
    assert s[..0] == [];
  }

  /** A pattern without '*' only matches names of its own length. */
  lemma {:induction false} NoStarLength(p: string, s: string)
    requires forall i :: 0 <= i < |p| ==> p[i] != '*'
    requires GlobMatch(p, s)
    ensures |s| == |p|
    decreases |p|
  {
    if p != [] {
      NoStarLength(p[1..], s[1..]);
    }
  }

  /** Only the last path component is matched: the directory part
      never affects the outcome. */
  lemma MatchesBaseNameOnly(dir: string, name: string, pattern: string)
    requires PlainPattern(pattern) && '/' !in name
    ensures MatchesPattern(dir + "/" + name, pattern) <==> GlobMatch(pattern, name)
  {
    Language.FileNameAppend(dir + "/", name);
    assert Language.LastIndexOf(dir + "/", '/') == Some(|dir|);
    assert Language.FileName(dir + "/") == [];
    assert [] + name == name;
  }

  /** The pattern loop of scan_directory and resolve_paths: stops at the
      first pattern that matches. */
  method MatchesAny(path: string, patterns: seq<string>) returns (matches: bool)
    requires AllPlain(patterns)
    ensures matches <==> MatchesAnyPattern(path, patterns)
  {
    matches := false;
    var i := 0;
    while i < |patterns|
      invariant 0 <= i <= |patterns|
      invariant !matches
      invariant forall j :: 0 <= j < i ==> !MatchesPattern(path, patterns[j])
    {
      var pattern := patterns[i];
      if MatchesPattern(path, pattern) {
        matches := true;
        return;
      }
      i := i + 1;
    }
  }

  // ---------------------------------------------------------------------
  // Directory scanning

  /** The regular files among `entries` that match some pattern, in order. */
  function Selected(fs: FS, entries: seq<string>, patterns: seq<string>): seq<string>
    requires AllPlain(patterns)
  {
    if entries == [] then []
    else
      var last := entries[|entries| - 1];
      Selected(fs, entries[..|entries| - 1], patterns)
        + (if IsRegularFile(fs, last) && MatchesAnyPattern(last, patterns) then [last] else [])
  }

  lemma {:induction false} SelectedIff(fs: FS, entries: seq<string>, patterns: seq<string>, x: string)
    requires AllPlain(patterns)
    ensures x in Selected(fs, entries, patterns) <==>
      x in entries && IsRegularFile(fs, x) && MatchesAnyPattern(x, patterns)
  {
    if entries != [] {
      var init := entries[..|entries| - 1];
      SelectedIff(fs, init, patterns, x);
      assert entries == init + [entries[|entries| - 1]];
    }
  }

  /** What scan_directory appends: the matching regular files among the
      directory's entries (all descendants when recursive); nothing for a
      path that is not a directory. */
  function Scan(fs: FS, dir: string, recursive: bool, patterns: seq<string>): seq<string>
    requires AllPlain(patterns)
  {
    if !IsDirectory(fs, dir) then []
    else if recursive then Selected(fs, RecursiveEntries(fs, dir), patterns)
    else Selected(fs, DirectoryEntries(fs, dir), patterns)
  }

  /** scan_directory, with the results vector passed in and returned. */
  method ScanDirectory(fs: FS, dir: string, recursive: bool, patterns: seq<string>, results: seq<string>)
    returns (out: seq<string>)
    requires AllPlain(patterns)
    ensures out == results + Scan(fs, dir, recursive, patterns)
  {
    out := results;
    if !Exists(fs, dir) || !IsDirectory(fs, dir) {
      return;
    }
    var entries := if recursive then RecursiveEntries(fs, dir) else DirectoryEntries(fs, dir);
    var k := 0;
    while k < |entries|
      invariant 0 <= k <= |entries|
      invariant out == results + Selected(fs, entries[..k], patterns)
    {
      SelectedNext(fs, entries, k, patterns);
      var found := SelectEntry(fs, entries[k], patterns);
      AppendAssoc(results, Selected(fs, entries[..k], patterns), found);
      out := out + found;
      k := k + 1;
    }
    assert entries[..k] == entries;
  }

  lemma AppendAssoc(a: seq<string>, b: seq<string>, c: seq<string>)
    ensures (a + b) + c == a + (b + c)
  {
  }

  /** The part of Selected one entry contributes. */
  function SelectedItem(fs: FS, entry: string, patterns: seq<string>): seq<string>
    requires AllPlain(patterns)
  {
    if IsRegularFile(fs, entry) && MatchesAnyPattern(entry, patterns) then [entry] else []
  }

  lemma SelectedNext(fs: FS, entries: seq<string>, k: nat, patterns: seq<string>)
    requires AllPlain(patterns) && k < |entries|
    ensures Selected(fs, entries[..k + 1], patterns)
         == Selected(fs, entries[..k], patterns) + SelectedItem(fs, entries[k], patterns)
  {
    assert entries[..k + 1][..k] == entries[..k];
  }

  /** One iteration of scan_directory's loop: the entry, when it is a
      regular file matching a pattern. */
  method SelectEntry(fs: FS, entry: string, patterns: seq<string>) returns (found: seq<string>)
    requires AllPlain(patterns)
    ensures found == SelectedItem(fs, entry, patterns)
  {
    found := [];
    if IsRegularFile(fs, entry) {
      var matches := MatchesAny(entry, patterns);
      if matches {
        found := [entry];
      }
    }
  }

  /** A non-recursive scan yields exactly the matching regular files that
      are direct entries of the directory. */
  lemma ScanFlat(fs: FS, dir: string, patterns: seq<string>, x: string)
    requires AllPlain(patterns) && IsDirectory(fs, dir)
    ensures x in Scan(fs, dir, false, patterns) <==>
      x in DirectoryEntries(fs, dir) && IsRegularFile(fs, x) && MatchesAnyPattern(x, patterns)
  {
    SelectedIff(fs, DirectoryEntries(fs, dir), patterns, x);
  }

  /** A recursive scan finds everything a flat scan finds. */
  lemma ScanRecursiveCoversFlat(fs: FS, dir: string, patterns: seq<string>, x: string)
    requires AllPlain(patterns) && x in Scan(fs, dir, false, patterns)
    ensures x in Scan(fs, dir, true, patterns)
  {
    ScanFlat(fs, dir, patterns, x);
    DirectEntriesIncluded(fs, dir, x);
    SelectedIff(fs, RecursiveEntries(fs, dir), patterns, x);
  }

  // ---------------------------------------------------------------------
  // The ordered set of results: std::set<std::filesystem::path>, kept as
  // a sequence strictly increasing in path order.

  /** The `paths` selector of Ordering.Less and InOrder: true compares as
      std::filesystem::path does, false as std::string does. */
  const ComparePaths := true

  // ---------------------------------------------------------------------
  // resolve_paths

  /** The canonical paths one input contributes: nothing if it does not
      exist; itself if it is a regular file matching some pattern; the
      scanned files if it is a directory; nothing otherwise. */
  function Contribution(fs: FS, p: string, recursive: bool, patterns: seq<string>, canonical: string -> string): set<string>
    requires AllPlain(patterns)
  {
    if !Exists(fs, p) then {}
    else if IsRegularFile(fs, p) then (if MatchesAnyPattern(p, patterns) then {canonical(p)} else {})
    else if IsDirectory(fs, p) then
      var found := Scan(fs, p, recursive, patterns);
      set k | 0 <= k < |found| :: canonical(found[k])
    else {}
  }

  function Resolved(fs: FS, paths: seq<string>, recursive: bool, patterns: seq<string>, canonical: string -> string): set<string>
    requires AllPlain(patterns)
  {
    if paths == [] then {}
    else Resolved(fs, paths[..|paths| - 1], recursive, patterns, canonical)
         + Contribution(fs, paths[|paths| - 1], recursive, patterns, canonical)
  }

  /** Inserting every canonicalised scan result into the ordered set. */
  method InsertAll(unique: seq<string>, found: seq<string>, canonical: string -> string)
    returns (r: seq<string>)
    requires Sorted(unique, ComparePaths)
    ensures Sorted(r, ComparePaths)
    ensures Elems(r) == Elems(unique) + (set k | 0 <= k < |found| :: canonical(found[k]))
  {
    r := unique;
    var k := 0;
    while k < |found|
      invariant 0 <= k <= |found|
      invariant Sorted(r, ComparePaths)
      invariant Elems(r) == Elems(unique) + (set i | 0 <= i < k :: canonical(found[i]))
    {
      r := Insert(r, canonical(found[k]), ComparePaths);
      assert (set i | 0 <= i < k + 1 :: canonical(found[i]))
          == (set i | 0 <= i < k :: canonical(found[i])) + {canonical(found[k])};
      k := k + 1;
    }
  }

  lemma ResolvedStep(fs: FS, paths: seq<string>, n: nat, recursive: bool, patterns: seq<string>, canonical: string -> string)
    requires AllPlain(patterns) && n < |paths|
    ensures Resolved(fs, paths[..n + 1], recursive, patterns, canonical)
         == Resolved(fs, paths[..n], recursive, patterns, canonical) + Contribution(fs, paths[n], recursive, patterns, canonical)
  {
    assert paths[..n + 1][..n] == paths[..n];
  }

  /** The body of the resolve_paths loop for one input path. */
  method AddInput(fs: FS, unique: seq<string>, path: string, recursive: bool, patterns: seq<string>,
                  canonical: string -> string)
    returns (r: seq<string>)
    requires AllPlain(patterns) && Sorted(unique, ComparePaths)
    ensures Sorted(r, ComparePaths)
    ensures Elems(r) == Elems(unique) + Contribution(fs, path, recursive, patterns, canonical)
  {
    r := unique;
    if !Exists(fs, path) {
      return;
    }
    if IsRegularFile(fs, path) {
      var matches := MatchesAny(path, patterns);
      if matches {
        r := Insert(r, canonical(path), ComparePaths);
      }
    } else if IsDirectory(fs, path) {
      var dirResults := ScanDirectory(fs, path, recursive, patterns, []);
      assert dirResults == Scan(fs, path, recursive, patterns);
      r := InsertAll(r, dirResults, canonical);
    }
  }

  /** resolve_paths: `canonical` stands for std::filesystem::canonical. */
  method ResolvePaths(fs: FS, paths: seq<string>, recursive: bool, patterns: seq<string>, canonical: string -> string)
    returns (results: seq<string>)
    requires AllPlain(patterns)
    ensures Sorted(results, ComparePaths)
    ensures Elems(results) == Resolved(fs, paths, recursive, patterns, canonical)
  {
    var unique: seq<string> := [];
    var n := 0;
    while n < |paths|
      invariant 0 <= n <= |paths|
      invariant Sorted(unique, ComparePaths)
      invariant Elems(unique) == Resolved(fs, paths[..n], recursive, patterns, canonical)
    {
      ResolvedStep(fs, paths, n, recursive, patterns, canonical);
      unique := AddInput(fs, unique, paths[n], recursive, patterns, canonical);
      n := n + 1;
    }
    assert paths[..n] == paths;
    results := unique;
  }

  /** An input that does not exist contributes nothing. */
  lemma MissingInputIgnored(fs: FS, paths: seq<string>, missing: string, recursive: bool,
                            patterns: seq<string>, canonical: string -> string)
    requires AllPlain(patterns) && !Exists(fs, missing)
    ensures Resolved(fs, paths + [missing], recursive, patterns, canonical)
         == Resolved(fs, paths, recursive, patterns, canonical)
  {
    assert (paths + [missing])[..|paths|] == paths;
  }

  lemma {:induction false} SelectedNoPatterns(fs: FS, entries: seq<string>)
    ensures Selected(fs, entries, []) == []
  {
    if entries != [] {
      SelectedNoPatterns(fs, entries[..|entries| - 1]);
    }
  }

  /** With no patterns nothing is selected. */
  lemma {:induction false} NoPatternsNothing(fs: FS, paths: seq<string>, recursive: bool, canonical: string -> string)
    ensures Resolved(fs, paths, recursive, [], canonical) == {}
  {
    if paths != [] {
      NoPatternsNothing(fs, paths[..|paths| - 1], recursive, canonical);
      var p := paths[|paths| - 1];
      SelectedNoPatterns(fs, RecursiveEntries(fs, p));
      SelectedNoPatterns(fs, DirectoryEntries(fs, p));
    }
  }
}
