/** The comment markers of the file-summary tool: the seven marker words,
    their case-insensitive detection, and the line-by-line search for
    `(TODO|FIXME|HACK|NOTE|WARNING|BUG|OPTIMIZE)[:\s]+(.+)` with
    std::regex's ECMAScript semantics under icase, stated directly. */
module CommentMarkers {
  import opened Text

  datatype Marker = TODO | FIXME | HACK | NOTE | WARNING | BUG | OPTIMIZE

  /** The alternatives of the pattern, in the order the regex tries them. */
  const Markers: seq<Marker> := [TODO, FIXME, HACK, NOTE, WARNING, BUG, OPTIMIZE]

  /** marker_to_string. */
  function MarkerName(m: Marker): string
  {
    match m
    case TODO => "TODO"
    case FIXME => "FIXME"
    case HACK => "HACK"
    case NOTE => "NOTE"
    case WARNING => "WARNING"
    case BUG => "BUG"
    case OPTIMIZE => "OPTIMIZE"
  }

  /** detect_marker_type: the upper-cased text names the marker; any other
      text falls back to TODO. */
  function DetectMarker(text: string): (r: Marker)
    ensures forall m :: ToUpper(text) == MarkerName(m) ==> r == m
    ensures r == TODO || ToUpper(text) == MarkerName(r)
  {
    var upper := ToUpper(text);
    if upper == "TODO" then TODO
    else if upper == "FIXME" then FIXME
    else if upper == "HACK" then HACK
    else if upper == "NOTE" then NOTE
    else if upper == "WARNING" then WARNING
    else if upper == "BUG" then BUG
    else if upper == "OPTIMIZE" then OPTIMIZE
    else TODO
  }

  /** Upper-casing leaves a string without lower-case letters unchanged. */
  lemma UpperFixed(s: string)
    requires forall i :: 0 <= i < |s| ==> !('a' <= s[i] <= 'z')
    ensures ToUpper(s) == s
  {
  }

  /** Upper-casing ignores the case of the input. */
  lemma UpperOfLower(s: string)
    ensures ToUpper(ToLower(s)) == ToUpper(s)
  {
  }

  /** detect_marker_type undoes marker_to_string, so the names are
      distinct. */
  lemma MarkerRoundTrip(m: Marker)
    ensures DetectMarker(MarkerName(m)) == m
    ensures forall n :: MarkerName(n) == MarkerName(m) ==> n == m
  {
    UpperFixed(MarkerName(m));
    forall n | MarkerName(n) == MarkerName(m) ensures n == m {
      UpperFixed(MarkerName(n));
    }
  }

  /** Detection ignores case: a lower-case marker word names the same
      marker. */
  lemma MarkerCaseInsensitive(text: string)
    ensures DetectMarker(ToLower(text)) == DetectMarker(text)
  {
    UpperOfLower(text);
  }

  // ---------------------------------------------------------------------
  // The regex, stated directly

  /** `[:\s]`: a colon or a character isspace accepts. */
  predicate IsSep(c: char)
  {
    c == ':' || c == ' ' || c == '\t' || c == '\n' || c == '\r' || c == 11 as char || c == 12 as char
  }

  /** ECMAScript `.`: anything but a line terminator. */
  predicate IsDot(c: char)
  {
    c != '\n' && c != '\r'
  }

  /** The length of the run of characters satisfying the separator class
      from position j. */
  function SepRun(line: string, j: nat): (r: nat)
    ensures j + r <= |line| || r == 0
    decreases |line| - j
  {
    if j < |line| && IsSep(line[j]) then 1 + SepRun(line, j + 1) else 0
  }

  /** The separator run is maximal. */
  lemma {:induction false} SepRunMaximal(line: string, j: nat)
    ensures forall k :: j <= k < j + SepRun(line, j) ==> IsSep(line[k])
    ensures j + SepRun(line, j) < |line| ==> !IsSep(line[j + SepRun(line, j)])
    decreases |line| - j
  {
    if j < |line| && IsSep(line[j]) {
      SepRunMaximal(line, j + 1);
    }
  }

  /** The length of the run of `.`-characters from position s. */
  function DotRun(line: string, s: nat): (r: nat)
    ensures s + r <= |line| || r == 0
    decreases |line| - s
  {
    if s < |line| && IsDot(line[s]) then 1 + DotRun(line, s + 1) else 0
  }

  /** The `.` run is maximal: `(.+)` is greedy. */
  lemma {:induction false} DotRunMaximal(line: string, s: nat)
    ensures forall k :: s <= k < s + DotRun(line, s) ==> IsDot(line[k])
    ensures s + DotRun(line, s) < |line| ==> !IsDot(line[s + DotRun(line, s)])
    decreases |line| - s
  {
    if s < |line| && IsDot(line[s]) {
      DotRunMaximal(line, s + 1);
    }
  }

  /** Where `(.+)` starts after the separators: the greedy `[:\s]+` first
      takes all r separators and gives them back one at a time until the
      next character is a `.`-character; it keeps at least one. */
  function GroupStart(line: string, j: nat, r: nat): (s: Option<nat>)
    ensures s.Some? ==> j < s.value <= j + r && s.value < |line| && IsDot(line[s.value])
  {
    if r == 0 then None
    else if j + r < |line| && IsDot(line[j + r]) then Some(j + r)
    else GroupStart(line, j, r - 1)
  }

  /** The group starts at the last admissible position: the separators
      are given back only as far as needed. */
  lemma {:induction false} GroupStartLast(line: string, j: nat, r: nat)
    ensures GroupStart(line, j, r).Some? ==>
              forall t :: GroupStart(line, j, r).value < t <= j + r && t < |line| ==> !IsDot(line[t])
    ensures GroupStart(line, j, r).None? ==> forall t :: j < t <= j + r && t < |line| ==> !IsDot(line[t])
  {
    if r > 0 && !(j + r < |line| && IsDot(line[j + r])) {
      GroupStartLast(line, j, r - 1);
    }
  }

  /** A match of the pattern found in a line: where the marker word
      starts, which alternative matched, and group 2. */
  datatype Found = Found(at: nat, marker: Marker, text: string)

  /** Whether the upper-cased word occurs at position i, ignoring case:
      the icase comparison of one alternative, character by character. */
  predicate WordAt(line: string, i: nat, word: string)
    ensures WordAt(line, i, word) ==> i + |word| <= |line|
    decreases |word|
  {
    if word == [] then i <= |line|
    else i < |line| && UpperChar(line[i]) == word[0] && WordAt(line, i + 1, word[1..])
  }

  /** A word found at i is a slice of the line whose upper-cased form is
      the word. */
  lemma {:induction false} WordAtSlice(line: string, i: nat, word: string)
    requires WordAt(line, i, word)
    ensures i + |word| <= |line| && ToUpper(line[i..i + |word|]) == word
    decreases |word|
  {
    if word != [] {
      WordAtSlice(line, i + 1, word[1..]);
      var u := ToUpper(line[i..i + |word|]);
      assert u[0] == word[0];
      assert u[1..] == ToUpper(line[i + 1..i + |word|]);
      assert u == [u[0]] + u[1..];
    }
  }

  /** The match of one alternative at position i, if any. */
  function MatchWith(line: string, i: nat, m: Marker): (f: Option<Found>)
    ensures f.Some? ==> f.value.at == i && f.value.marker == m && WordAt(line, i, MarkerName(m))
  {
    if !WordAt(line, i, MarkerName(m)) then None
    else
      var j := i + |MarkerName(m)|;
      match GroupStart(line, j, SepRun(line, j))
      case None => None
      case Some(s) => Some(Found(i, m, line[s..s + DotRun(line, s)]))
  }

  /** A match is the marker word, at least one separator and a nonempty
      run of `.`-characters; a word followed by a separator and one
      `.`-character always matches. */
  lemma MatchWithMeaning(line: string, i: nat, m: Marker)
    ensures MatchWith(line, i, m).Some? ==>
              var f := MatchWith(line, i, m).value;
              i + |MarkerName(m)| < |line| && IsSep(line[i + |MarkerName(m)|])
              && f.text != [] && forall k :: 0 <= k < |f.text| ==> IsDot(f.text[k])
    ensures (WordAt(line, i, MarkerName(m)) && i + |MarkerName(m)| + 1 < |line| && IsSep(line[i + |MarkerName(m)|])
             && IsDot(line[i + |MarkerName(m)| + 1])) ==> MatchWith(line, i, m).Some?
  {
    MatchWithFound(line, i, m);
    MatchWithDotted(line, i, m);
  }

  lemma MatchWithFound(line: string, i: nat, m: Marker)
    ensures MatchWith(line, i, m).Some? ==>
              var f := MatchWith(line, i, m).value;
              i + |MarkerName(m)| < |line| && IsSep(line[i + |MarkerName(m)|])
              && f.text != [] && forall k :: 0 <= k < |f.text| ==> IsDot(f.text[k])
  {
    var j := i + |MarkerName(m)|;
    if WordAt(line, i, MarkerName(m)) {
      SepRunMaximal(line, j);
      GroupStartLast(line, j, SepRun(line, j));
      match GroupStart(line, j, SepRun(line, j))
      case None =>
      case Some(s) => DotRunMaximal(line, s);
    }
  }

  lemma MatchWithDotted(line: string, i: nat, m: Marker)
    ensures (WordAt(line, i, MarkerName(m)) && i + |MarkerName(m)| + 1 < |line| && IsSep(line[i + |MarkerName(m)|])
             && IsDot(line[i + |MarkerName(m)| + 1])) ==> MatchWith(line, i, m).Some?
  {
    var j := i + |MarkerName(m)|;
    if WordAt(line, i, MarkerName(m)) && j + 1 < |line| {
      SepRunMaximal(line, j);
      GroupStartLast(line, j, SepRun(line, j));
    }
  }

  /** The first alternative, in pattern order, that matches at position i. */
  function MatchFrom(line: string, i: nat, ms: seq<Marker>): (f: Option<Found>)
    ensures f.Some? ==> f.value.at == i && f.value.marker in ms && WordAt(line, i, MarkerName(f.value.marker))
  {
    if ms == [] then None
    else match MatchWith(line, i, ms[0])
      case Some(f) => Some(f)
      case None => MatchFrom(line, i, ms[1..])
  }

  /** The match of the whole pattern at position i: the first alternative
      that matches there. */
  function MatchAt(line: string, i: nat): (f: Option<Found>)
    ensures f.Some? ==> f.value.at == i && WordAt(line, i, MarkerName(f.value.marker))
  {
    MatchFrom(line, i, Markers)
  }

  /** The leftmost position from i where `matchAt` succeeds, with its
      match. */
  function Leftmost(line: string, i: nat, matchAt: (string, nat) -> Option<Found>): (f: Option<Found>)
    ensures f.Some? ==> exists k :: i <= k < |line| && matchAt(line, k) == f
    decreases |line| - i
  {
    if i >= |line| then None
    else match matchAt(line, i)
      case Some(f) => Some(f)
      case None => Leftmost(line, i + 1, matchAt)
  }

  /** std::regex_search over one line. */
  function Search(line: string): Option<Found>
  {
    Leftmost(line, 0, MatchAt)
  }

  /** Leftmost finds the first position from i where `matchAt` succeeds,
      and finds one whenever such a position exists. */
  lemma {:induction false} LeftmostFirst(line: string, i: nat, matchAt: (string, nat) -> Option<Found>)
    ensures Leftmost(line, i, matchAt).Some? ==>
              exists k :: i <= k < |line| && matchAt(line, k) == Leftmost(line, i, matchAt)
                          && forall t :: i <= t < k ==> matchAt(line, t).None?
    ensures (exists k :: i <= k < |line| && matchAt(line, k).Some?) ==> Leftmost(line, i, matchAt).Some?
    decreases |line| - i
  {
    if i < |line| && matchAt(line, i).None? {
      LeftmostFirst(line, i + 1, matchAt);
      if Leftmost(line, i, matchAt).Some? {
        var k :| i + 1 <= k < |line| && matchAt(line, k) == Leftmost(line, i + 1, matchAt)
                 && forall t :: i + 1 <= t < k ==> matchAt(line, t).None?;
        assert forall t :: i <= t < k ==> matchAt(line, t).None?;
      }
      if exists k :: i <= k < |line| && matchAt(line, k).Some? {
        var k :| i <= k < |line| && matchAt(line, k).Some?;
        assert k != i;
      }
    }
  }

  /** std::regex_search finds the leftmost match in the line, and finds one
      whenever some position matches. */
  lemma SearchLeftmost(line: string)
    ensures Search(line).Some? ==> forall t :: 0 <= t < Search(line).value.at ==> MatchAt(line, t).None?
    ensures (exists k :: 0 <= k < |line| && MatchAt(line, k).Some?) ==> Search(line).Some?
  {
    LeftmostFirst(line, 0, MatchAt);
  }

  // ---------------------------------------------------------------------
  // extract_comment_markers

  datatype MarkerInfo = MarkerInfo(kind: Marker, text: string, line: nat, context: string)

  /** The marker of one line (numbered from 1): its type detected from the
      matched word, group 2 trimmed, and the whole line as context. */
  function LineMarker(line: string, number: nat): Option<MarkerInfo>
  {
    match Search(line)
    case None => None
    case Some(f) =>
      Some(MarkerInfo(DetectMarker(line[f.at..f.at + |MarkerName(f.marker)|]), Trim(f.text), number, line))
  }

  /** The markers of the given lines, in line order. */
  function MarkersOf(lines: seq<string>): seq<MarkerInfo>
  {
    Collect(lines, LineMarker)
  }

  /** What `mark` finds in each line, numbered from 1, in line order. */
  function Collect(lines: seq<string>, mark: (string, nat) -> Option<MarkerInfo>): seq<MarkerInfo>
  {
    if lines == [] then []
    else
      Collect(lines[..|lines| - 1], mark)
        + match mark(lines[|lines| - 1], |lines|)
          case None => []
          case Some(mk) => [mk]
  }

  /** extract_comment_markers: one getline loop over the source. */
  method ExtractCommentMarkers(source: string) returns (markers: seq<MarkerInfo>)
    ensures markers == MarkersOf(Lines(source))
  {
    var lines := Lines(source);
    markers := [];
    var lineNum := 1;
    while lineNum <= |lines|
      invariant 1 <= lineNum <= |lines| + 1
      invariant markers == MarkersOf(lines[..lineNum - 1])
    {
      var line := lines[lineNum - 1];
      assert lines[..lineNum][..lineNum - 1] == lines[..lineNum - 1] && lines[..lineNum][lineNum - 1] == line;
      var found := LineMarker(line, lineNum);
      if found.Some? {
        markers := markers + [found.value];
      } else {
        assert MarkersOf(lines[..lineNum]) == MarkersOf(lines[..lineNum - 1]) + [];
      }
      lineNum := lineNum + 1;
    }
    assert lines[..|lines|] == lines;
  }

  /** The markers come in strictly increasing line order, so at most one
      per line; each is numbered from 1 and names its own line as
      context. */
  lemma MarkersOrdered(lines: seq<string>)
    ensures forall i, j :: 0 <= i < j < |MarkersOf(lines)| ==> MarkersOf(lines)[i].line < MarkersOf(lines)[j].line
    ensures forall i :: 0 <= i < |MarkersOf(lines)| ==> OnLine(MarkersOf(lines)[i], lines)
  {
    LineMarkerPlaced();
    CollectOrdered(lines, LineMarker);
  }

  /** A per-line search that reports the line it was given, under the
      number it was given, with a well-formed marker. */
  ghost predicate Placed(mark: (string, nat) -> Option<MarkerInfo>)
  {
    forall line, number :: mark(line, number).Some? ==>
      mark(line, number).value.line == number && mark(line, number).value.context == line
      && WellFormed(mark(line, number).value)
  }

  lemma LineMarkerPlaced()
    ensures Placed(LineMarker)
  {
    forall line, number | LineMarker(line, number).Some?
      ensures LineMarker(line, number).value.line == number && LineMarker(line, number).value.context == line
              && WellFormed(LineMarker(line, number).value)
    {
      LineMarkerWellFormed(line, number);
    }
  }

  lemma {:induction false} CollectOrdered(lines: seq<string>, mark: (string, nat) -> Option<MarkerInfo>)
    requires Placed(mark)
    ensures forall i, j :: 0 <= i < j < |Collect(lines, mark)| ==> Collect(lines, mark)[i].line < Collect(lines, mark)[j].line
    ensures forall i :: 0 <= i < |Collect(lines, mark)| ==> OnLine(Collect(lines, mark)[i], lines)
    ensures forall i :: 0 <= i < |Collect(lines, mark)| ==> WellFormed(Collect(lines, mark)[i])
  {
    if lines != [] {
      var init := lines[..|lines| - 1];
      CollectOrdered(init, mark);
      var prev := Collect(init, mark);
      OnLongerLines(prev, init, lines);
      var last := mark(lines[|lines| - 1], |lines|);
      if last.Some? {
        assert Collect(lines, mark) == prev + [last.value];
      } else {
        assert Collect(lines, mark) == prev + [];
      }
    }
  }

  /** A marker that names line `line` of the given lines as its context. */
  ghost predicate OnLine(mk: MarkerInfo, lines: seq<string>)
  {
    1 <= mk.line <= |lines| && mk.context == lines[mk.line - 1]
  }

  /** Markers placed on lines of a prefix stay placed on the same lines of
      the whole. */
  lemma OnLongerLines(ms: seq<MarkerInfo>, init: seq<string>, lines: seq<string>)
    requires |init| <= |lines| && init == lines[..|init|]
    requires forall i :: 0 <= i < |ms| ==> OnLine(ms[i], init)
    ensures forall i :: 0 <= i < |ms| ==> OnLine(ms[i], lines) && ms[i].line <= |init|
  {
    forall i | 0 <= i < |ms| ensures OnLine(ms[i], lines) {
      assert init[ms[i].line - 1] == lines[ms[i].line - 1];
    }
  }

  /** Every marker's word occurs in its line and names its type, and its
      text carries no surrounding blanks. */
  lemma MarkersWellFormed(lines: seq<string>)
    ensures forall i :: 0 <= i < |MarkersOf(lines)| ==> WellFormed(MarkersOf(lines)[i])
  {
    LineMarkerPlaced();
    CollectOrdered(lines, LineMarker);
  }

  /** What every marker satisfies: the marker word occurs in its context
      (ignoring case) and names its type, and its text carries no
      surrounding blanks. */
  ghost predicate WellFormed(mk: MarkerInfo)
  {
    && (exists at :: WordAt(mk.context, at, MarkerName(mk.kind)))
    && (mk.text == [] || (mk.text[0] !in Blanks && mk.text[|mk.text| - 1] !in BlanksAndEol))
  }

  lemma LineMarkerWellFormed(line: string, number: nat)
    ensures LineMarker(line, number).Some? ==>
              LineMarker(line, number).value.line == number && LineMarker(line, number).value.context == line
              && WellFormed(LineMarker(line, number).value)
  {
    match Search(line)
    case None =>
    case Some(f) =>
      WordAtSlice(line, f.at, MarkerName(f.marker));
      TrimEnds(f.text);
  }
}
