/** Language detection and naming (LanguageUtils): the extension table,
    the enum <-> name mapping and the per-language extension lists. */
module Language {
  import opened Text

  /** The languages the server understands, in enum order. */
  datatype Lang = CPP | PYTHON | UNKNOWN

  /** Index of the last occurrence of `c` in `s`. */
  function LastIndexOf(s: string, c: char): (r: Option<nat>)
    ensures r.Some? ==> r.value < |s| && s[r.value] == c
    ensures r.Some? ==> forall j :: r.value < j < |s| ==> s[j] != c
    ensures r.None? ==> forall j :: 0 <= j < |s| ==> s[j] != c
  {
    if s == [] then None
    else if s[|s| - 1] == c then Some(|s| - 1)
    else LastIndexOf(s[..|s| - 1], c)
  }

  /** std::filesystem::path::filename on a POSIX path: the text after the
      last '/' (empty when the path ends in '/'). */
  function FileName(p: string): (r: string)
    ensures |r| <= |p| && r == p[|p| - |r|..]
    ensures '/' !in r
    ensures |r| < |p| ==> p[|p| - |r| - 1] == '/'
  {
    match LastIndexOf(p, '/')
    case None => p
    case Some(i) => p[i + 1..]
  }

  /** The extension part of a file name: from its last '.' to its end;
      empty for "." and "..", for a name without a dot, and for a name
      whose only dot is its first character. */
  function NameExtension(name: string): (r: string)
    ensures r == [] || (r[0] == '.' && '.' !in r[1..])
    ensures |r| <= |name| && r == name[|name| - |r|..]
  {
    if name == "." || name == ".." then ""
    else match LastIndexOf(name, '.')
      case None => ""
      case Some(i) =>
        if i == 0 then ""
        else
          assert name[i..][1..] == name[i + 1..];
          name[i..]
  }

  /** std::filesystem::path::extension: the extension of the file name. */
  function Extension(p: string): (r: string)
    ensures r == [] || (r[0] == '.' && '.' !in r[1..] && '/' !in r)
    ensures |r| <= |p| && r == p[|p| - |r|..]
  {
    var name := FileName(p);
    var r := NameExtension(name);
    assert r == name[|name| - |r|..];
    r
  }

  /** The extension lists of get_extensions, in the source's order. */
  function GetExtensions(lang: Lang): seq<string>
  {
    match lang
    case CPP => [".cpp", ".cxx", ".cc", ".c++", ".hpp", ".hxx", ".hh", ".h++", ".h", ".c"]
    case PYTHON => [".py", ".pyi", ".pyw"]
    case UNKNOWN => []
  }

  /** The comparison chain of detect_from_extension on an already
      lower-cased extension. */
  function LanguageOfExtension(lower: string): (r: Lang)
    ensures r == CPP <==> lower in GetExtensions(CPP)
    ensures r == PYTHON <==> lower in GetExtensions(PYTHON)
  {
    if lower == ".cpp" || lower == ".cxx" || lower == ".cc" || lower == ".c++"
       || lower == ".hpp" || lower == ".hxx" || lower == ".hh" || lower == ".h++"
       || lower == ".h" || lower == ".c" then CPP
    else if lower == ".py" || lower == ".pyi" || lower == ".pyw" then PYTHON
    else UNKNOWN
  }

  /** detect_from_extension: the language named by the lower-cased
      extension of the path; UNKNOWN for an empty path, a missing
      extension or one in neither list. */
  function DetectFromExtension(p: string): Lang
  {
    if p == [] then UNKNOWN
    else
      var ext := Extension(p);
      if ext == [] then UNKNOWN
      else LanguageOfExtension(ToLower(ext))
  }

  /** to_string. */
  function ToString(lang: Lang): string
  {
    match lang
    case CPP => "cpp"
    case PYTHON => "python"
    case UNKNOWN => "unknown"
  }

  /** The aliases from_string accepts, lower-case. */
  const CppAliases: seq<string> := ["cpp", "c++", "cxx", "cplusplus", "c"]
  const PythonAliases: seq<string> := ["python", "py"]

  /** from_string: the lower-cased name looked up among the aliases;
      anything else is UNKNOWN (it never fails). */
  function FromString(name: string): (r: Lang)
    ensures r == CPP <==> ToLower(name) in CppAliases
    ensures r == PYTHON <==> ToLower(name) in PythonAliases
  {
    var lower := ToLower(name);
    if lower == "cpp" || lower == "c++" || lower == "cxx" || lower == "cplusplus" || lower == "c" then CPP
    else if lower == "python" || lower == "py" then PYTHON
    else UNKNOWN
  }

  // ---------------------------------------------------------------------
  // Properties

  /** from_string inverts to_string on every language. */
  lemma FromStringToString(lang: Lang)
    ensures FromString(ToString(lang)) == lang
  {
    match lang
    case CPP =>
      assert ToLower("cpp") == "cpp";
    case PYTHON =>
      assert ToLower("python") == "python";
    case UNKNOWN =>
      assert ToLower("unknown") == "unknown";
  }

  /** to_string gives distinct names. */
  lemma ToStringInjective(a: Lang, b: Lang)
    ensures ToString(a) == ToString(b) ==> a == b
  {
    if ToString(a) == ToString(b) {
      FromStringToString(a);
      FromStringToString(b);
    }
  }

  /** Lower-casing a string twice changes nothing more. */
  lemma {:induction false} LowerTwice(s: string)
    ensures ToLower(ToLower(s)) == ToLower(s)
  {
    var t := ToLower(s);
    assert forall i :: 0 <= i < |s| ==> LowerChar(t[i]) == t[i];
  }

  /** from_string ignores letter case. */
  lemma FromStringIgnoresCase(a: string, b: string)
    requires ToLower(a) == ToLower(b)
    ensures FromString(a) == FromString(b)
  {
  }

  /** The last '/' is found at the same place after lower-casing, and
      likewise the last '.': lower-casing leaves both characters alone. */
  lemma {:induction false} LastIndexOfLower(s: string, c: char)
    requires c == '/' || c == '.'
    ensures LastIndexOf(ToLower(s), c) == LastIndexOf(s, c)
    decreases |s|
  {
    if s != [] {
      var t := ToLower(s);
      assert t[|t| - 1] == LowerChar(s[|s| - 1]);
      assert t[..|t| - 1] == ToLower(s[..|s| - 1]);
      LastIndexOfLower(s[..|s| - 1], c);
    }
  }

  lemma ToLowerSlice(s: string, i: nat)
    requires i <= |s|
    ensures ToLower(s)[i..] == ToLower(s[i..])
  {
  }

  /** Lower-casing the path lower-cases its file name. */
  lemma FileNameLower(p: string)
    ensures FileName(ToLower(p)) == ToLower(FileName(p))
  {
    LastIndexOfLower(p, '/');
    match LastIndexOf(p, '/')
    case None =>
    case Some(i) => ToLowerSlice(p, i + 1);
  }

  /** Lower-casing neither makes nor unmakes the names "." and "..". */
  lemma DotNamesLower(name: string)
    ensures ToLower(name) == "." <==> name == "."
    ensures ToLower(name) == ".." <==> name == ".."
  {
    var t := ToLower(name);
    if |name| == 1 {
      assert t[0] == LowerChar(name[0]);
    } else if |name| == 2 {
      assert t[0] == LowerChar(name[0]) && t[1] == LowerChar(name[1]);
    }
  }

  /** Lower-casing a file name lower-cases its extension. */
  lemma NameExtensionLower(name: string)
    ensures NameExtension(ToLower(name)) == ToLower(NameExtension(name))
  {
    DotNamesLower(name);
    LastIndexOfLower(name, '.');
    if name != "." && name != ".." {
      match LastIndexOf(name, '.')
      case None =>
      case Some(i) =>
        if i > 0 {
          ToLowerSlice(name, i);
        }
    }
  }

  /** Lower-casing the path lower-cases its extension. */
  lemma ExtensionLower(p: string)
    ensures Extension(ToLower(p)) == ToLower(Extension(p))
  {
    FileNameLower(p);
    NameExtensionLower(FileName(p));
  }

  /** detect_from_extension names the language whose list holds the
      lower-cased extension of the path, and UNKNOWN for an empty path, a
      missing extension or one in neither list. */
  lemma DetectMeaning(p: string)
    ensures p == [] || Extension(p) == [] ==> DetectFromExtension(p) == UNKNOWN
    ensures DetectFromExtension(p) == CPP <==> p != [] && ToLower(Extension(p)) in GetExtensions(CPP)
    ensures DetectFromExtension(p) == PYTHON <==> p != [] && ToLower(Extension(p)) in GetExtensions(PYTHON)
  {
    if p != [] {
      var lower := ToLower(Extension(p));
      assert DetectFromExtension(p) == LanguageOfExtension(lower) by {
        if Extension(p) == [] {
          assert lower == [];
        }
      }
    }
  }

  /** Detection is case-insensitive: paths equal up to letter case
      detect as the same language. */
  lemma DetectIgnoresCase(p: string, q: string)
    requires ToLower(p) == ToLower(q)
    ensures DetectFromExtension(p) == DetectFromExtension(q)
  {
    ExtensionLower(p);
    ExtensionLower(q);
    LowerTwice(Extension(p));
    LowerTwice(Extension(q));
    assert |p| == |q|;
    assert Extension(p) == [] <==> Extension(q) == [] by {
      assert |Extension(p)| == |ToLower(Extension(p))| == |Extension(ToLower(p))|;
      assert |Extension(q)| == |ToLower(Extension(q))| == |Extension(ToLower(q))|;
    }
  }

  /** Appending text free of `c` keeps the last `c` where it was. */
  lemma {:induction false} LastIndexOfAppend(a: string, b: string, c: char)
    requires c !in b
    ensures LastIndexOf(a + b, c) == LastIndexOf(a, c)
    decreases |b|
  {
    if b == [] {
      assert a + b == a;
    } else {
      var ab := a + b;
      assert ab[..|ab| - 1] == a + b[..|b| - 1];
      assert ab[|ab| - 1] == b[|b| - 1];
      LastIndexOfAppend(a, b[..|b| - 1], c);
    }
  }

  /** Appending text without '/' to a path extends its file name. */
  lemma FileNameAppend(a: string, b: string)
    requires '/' !in b
    ensures FileName(a + b) == FileName(a) + b
  {
    LastIndexOfAppend(a, b, '/');
    match LastIndexOf(a, '/')
    case None =>
    case Some(i) =>
      assert (a + b)[i + 1..] == a[i + 1..] + b;
  }

  /** The last dot of `x + e` is the first character of `e` when `e`
      starts with its only dot. */
  lemma {:induction false} LastDotAppend(x: string, e: string)
    requires e != [] && e[0] == '.' && '.' !in e[1..]
    ensures LastIndexOf(x + e, '.') == Some(|x|)
    decreases |e|
  {
    var xe := x + e;
    if |e| == 1 {
      assert xe[|xe| - 1] == '.';
    } else {
      assert xe[|xe| - 1] == e[|e| - 1];
      assert e[|e| - 1] in e[1..];
      assert xe[..|xe| - 1] == x + e[..|e| - 1];
      assert e[..|e| - 1][1..] == e[1..|e| - 1];
      LastDotAppend(x, e[..|e| - 1]);
    }
  }

  /** A string without upper-case ASCII letters is its own lower case. */
  lemma LowerOfLower(s: string)
    requires forall i :: 0 <= i < |s| ==> !('A' <= s[i] <= 'Z')
    ensures ToLower(s) == s
  {
  }

  /** A dot followed by at least one lower-case letter or '+' sign. */
  predicate ExtensionShaped(e: string)
  {
    |e| >= 2 && e[0] == '.' && forall i :: 1 <= i < |e| ==> 'a' <= e[i] <= 'z' || e[i] == '+'
  }

  /** Every listed extension is shaped that way. */
  lemma ListedExtensionShaped(lang: Lang, e: string)
    requires e in GetExtensions(lang)
    ensures ExtensionShaped(e)
  {
    var x := GetExtensions(lang);
    if lang == CPP {
      assert ExtensionShaped(x[0]) && ExtensionShaped(x[1]) && ExtensionShaped(x[2]);
      assert ExtensionShaped(x[3]) && ExtensionShaped(x[4]) && ExtensionShaped(x[5]);
      assert ExtensionShaped(x[6]) && ExtensionShaped(x[7]) && ExtensionShaped(x[8]);
      assert ExtensionShaped(x[9]);
    } else {
      assert ExtensionShaped(x[0]) && ExtensionShaped(x[1]) && ExtensionShaped(x[2]);
    }
  }

  /** A shaped extension is its own lower case, has a single leading dot
      and no '/'. */
  lemma ShapedExtensionFacts(e: string)
    requires ExtensionShaped(e)
    ensures '.' !in e[1..] && '/' !in e
    ensures ToLower(e) == e
  {
    LowerOfLower(e);
  }

  /** The two tables agree: a file whose name ends in a listed extension
      of a language (after a non-empty stem) is detected as that language;
      UNKNOWN lists no extension. */
  lemma ExtensionsDetect(lang: Lang, stem: string, e: string)
    requires e in GetExtensions(lang)
    requires stem != [] && stem[|stem| - 1] != '/'
    ensures DetectFromExtension(stem + e) == lang
  {
    ListedExtensionShaped(lang, e);
    ShapedExtensionFacts(e);
    ExtensionOfAppend(stem, e);
  }

  /** A file name ending in a dot-led suffix without further dots or
      slashes, after a non-empty stem, has that suffix as its extension. */
  lemma ExtensionOfAppend(stem: string, e: string)
    requires |e| >= 2 && e[0] == '.' && '.' !in e[1..] && '/' !in e
    requires stem != [] && stem[|stem| - 1] != '/'
    ensures Extension(stem + e) == e
  {
    FileNameAppend(stem, e);
    var base := FileName(stem);
    assert base != [];
    LastDotAppend(base, e);
    assert base + e != "." && base + e != "..";
    assert (base + e)[|base|..] == e;
  }

  lemma UnknownHasNoExtensions()
    ensures GetExtensions(UNKNOWN) == []
  {
  }
}
