/** Small string toolkit shared by the analysis modules: the C++ standard
    library string operations the tools rely on (find, find_first_of,
    substr, case conversion in the "C" locale, whitespace trimming and
    std::getline splitting), stated over `string` = `seq<char>`. */
module Text {

  datatype Option<+T> = None | Some(value: T)

  datatype Result<+T> = Ok(value: T) | Err(error: string)

  /** `pat` occurs in `s` starting at index `i`. */
  predicate OccursAt(s: string, pat: string, i: nat)
  {
    i + |pat| <= |s| && s[i..i + |pat|] == pat
  }

  /** std::string::find: the first index at which `pat` occurs in `s`
      (None plays the role of npos). */
  function Find(s: string, pat: string): (r: Option<nat>)
    ensures r.Some? ==> OccursAt(s, pat, r.value)
    ensures r.Some? ==> forall j :: 0 <= j < r.value ==> !OccursAt(s, pat, j)
    ensures r.None? ==> forall j :: 0 <= j <= |s| ==> !OccursAt(s, pat, j)
    decreases |s|
  {
    if |pat| > |s| then None
    else if s[..|pat|] == pat then Some(0)
    else
      match Find(s[1..], pat)
      case None =>
        assert forall j :: 1 <= j <= |s| ==> (OccursAt(s, pat, j) <==> OccursAt(s[1..], pat, j - 1));
        None
      case Some(k) =>
        assert forall j :: 1 <= j <= |s| ==> (OccursAt(s, pat, j) <==> OccursAt(s[1..], pat, j - 1));
        Some(k + 1)
  }

  /** `s.find(pat) != npos`. */
  predicate Contains(s: string, pat: string)
  {
    Find(s, pat).Some?
  }

  lemma {:induction false} ContainsIff(s: string, pat: string)
    ensures Contains(s, pat) <==> exists i :: 0 <= i <= |s| && OccursAt(s, pat, i)
  {
    match Find(s, pat)
    case Some(i) =>
    case None =>
  }

  /** The empty pattern is found at index 0 of every string. */
  lemma EmptyPatternFound(s: string)
    ensures Find(s, "") == Some(0)
  {
  }

  /** std::string::find(char): first index holding `c`. */
  function FindChar(s: string, c: char): (r: Option<nat>)
    ensures r.Some? ==> r.value < |s| && s[r.value] == c
    ensures r.Some? ==> forall j :: 0 <= j < r.value ==> s[j] != c
    ensures r.None? ==> forall j :: 0 <= j < |s| ==> s[j] != c
  {
    if s == [] then None
    else if s[0] == c then Some(0)
    else match FindChar(s[1..], c)
      case None => None
      case Some(k) => Some(k + 1)
  }

  /** std::string::find_first_of(chars): first index holding a member of `cs`. */
  function FindFirstOf(s: string, cs: set<char>): (r: Option<nat>)
    ensures r.Some? ==> r.value < |s| && s[r.value] in cs
    ensures r.Some? ==> forall j :: 0 <= j < r.value ==> s[j] !in cs
    ensures r.None? ==> forall j :: 0 <= j < |s| ==> s[j] !in cs
  {
    if s == [] then None
    else if s[0] in cs then Some(0)
    else match FindFirstOf(s[1..], cs)
      case None => None
      case Some(k) => Some(k + 1)
  }

  /** std::tolower / std::toupper in the "C" locale: only ASCII letters change. */
  function LowerChar(c: char): char
  {
    if 'A' <= c <= 'Z' then (c as int + 32) as char else c
  }

  function UpperChar(c: char): char
  {
    if 'a' <= c <= 'z' then (c as int - 32) as char else c
  }

  function ToLower(s: string): (r: string)
    ensures |r| == |s|
    ensures forall i :: 0 <= i < |s| ==> r[i] == LowerChar(s[i])
  {
    seq(|s|, i requires 0 <= i < |s| => LowerChar(s[i]))
  }

  function ToUpper(s: string): (r: string)
    ensures |r| == |s|
    ensures forall i :: 0 <= i < |s| ==> r[i] == UpperChar(s[i])
  {
    seq(|s|, i requires 0 <= i < |s| => UpperChar(s[i]))
  }

  const Blanks: set<char> := {' ', '\t'}
  const BlanksAndEol: set<char> := {' ', '\t', '\r', '\n'}

  /** `s.erase(0, s.find_first_not_of(cs))`: drop the leading run of `cs`. */
  function TrimLeft(s: string, cs: set<char>): (r: string)
    ensures |r| <= |s| && r == s[|s| - |r|..]
    ensures r == [] || r[0] !in cs
    ensures forall i :: 0 <= i < |s| - |r| ==> s[i] in cs
  {
    if s != [] && s[0] in cs then TrimLeft(s[1..], cs) else s
  }

  /** `s.erase(s.find_last_not_of(cs) + 1)`: drop the trailing run of `cs`. */
  function TrimRight(s: string, cs: set<char>): (r: string)
    ensures |r| <= |s| && r == s[..|r|]
    ensures r == [] || r[|r| - 1] !in cs
    ensures forall i :: |r| <= i < |s| ==> s[i] in cs
  {
    if s != [] && s[|s| - 1] in cs then TrimRight(s[..|s| - 1], cs) else s
  }

  /** The trim used throughout the tools: leading blanks, then trailing
      blanks and line ends. */
  function Trim(s: string): string
  {
    TrimRight(TrimLeft(s, Blanks), BlanksAndEol)
  }

  /** Trimming leaves no blank at the front and no blank or line end at
      the back. */
  lemma TrimEnds(s: string)
    ensures Trim(s) == [] || (Trim(s)[0] !in Blanks && Trim(s)[|Trim(s)| - 1] !in BlanksAndEol)
  {
    var l := TrimLeft(s, Blanks);
    var r := TrimRight(l, Blanks + {'\r', '\n'});
    assert BlanksAndEol == Blanks + {'\r', '\n'};
    if r != [] {
      assert r[0] == l[0];
    }
  }

  /** The lines std::getline yields from a stream over `s`: pieces between
      '\n' characters, with no empty piece after a final '\n'. */
  function Lines(s: string): (r: seq<string>)
    ensures forall k :: 0 <= k < |r| ==> '\n' !in r[k]
    decreases |s|
  {
    if s == [] then []
    else match FindChar(s, '\n')
      case None => [s]
      case Some(i) => [s[..i]] + Lines(s[i + 1..])
  }

  /** Joining the lines back, each followed by '\n'. */
  function JoinLines(ls: seq<string>): string
  {
    if ls == [] then [] else ls[0] + "\n" + JoinLines(ls[1..])
  }

  /** Lines and JoinLines undo each other: joining the lines gives the
      text back, with a '\n' added only when the text did not end in one. */
  lemma {:induction false} LinesRoundTrip(s: string)
    ensures s == [] || s[|s| - 1] == '\n' ==> JoinLines(Lines(s)) == s
    ensures s != [] && s[|s| - 1] != '\n' ==> JoinLines(Lines(s)) == s + "\n"
    decreases |s|
  {
    if s != [] {
      match FindChar(s, '\n')
      case None =>
        assert s[|s| - 1] != '\n';
      case Some(i) =>
        var t := s[i + 1..];
        LinesRoundTrip(t);
        SplitAt(s, i);
        var ls := Lines(s);
        assert ls == [s[..i]] + Lines(t);
        assert ls[1..] == Lines(t);
        assert JoinLines(ls) == s[..i] + "\n" + JoinLines(Lines(t));
        if t != [] {
          assert t[|t| - 1] == s[|s| - 1];
          if s[|s| - 1] != '\n' {
            assert s + "\n" == s[..i] + "\n" + (t + "\n");
          }
        }
    }
  }

  lemma SplitAt(s: string, i: nat)
    requires i < |s|
    ensures s == s[..i] + [s[i]] + s[i + 1..]
  {
    assert s[..i + 1] == s[..i] + [s[i]];
    assert s == s[..i + 1] + s[i + 1..];
  }

  /** Number of occurrences of `c` in `s`. */
  function CountChar(s: string, c: char): nat
  {
    if s == [] then 0 else (if s[0] == c then 1 else 0) + CountChar(s[1..], c)
  }

  lemma {:induction false} CountCharAppend(a: string, b: string, c: char)
    ensures CountChar(a + b, c) == CountChar(a, c) + CountChar(b, c)
    decreases |a|
  {
    if a != [] {
      assert (a + b)[1..] == a[1..] + b;
      CountCharAppend(a[1..], b, c);
    } else {
      assert a + b == b;
    }
  }

  /** std::getline yields one line per '\n', plus one for an unterminated tail. */
  lemma {:induction false} LinesCount(s: string)
    ensures |Lines(s)| == CountChar(s, '\n') + (if s != [] && s[|s| - 1] != '\n' then 1 else 0)
    decreases |s|
  {
    if s != [] {
      match FindChar(s, '\n')
      case None =>
        NoCharCount(s, '\n');
      case Some(i) =>
        var t := s[i + 1..];
        LinesCount(t);
        SplitAt(s, i);
        CountCharAppend(s[..i] + [s[i]], t, '\n');
        CountCharAppend(s[..i], [s[i]], '\n');
        NoCharCount(s[..i], '\n');
        if t != [] {
          assert t[|t| - 1] == s[|s| - 1];
        }
    }
  }

  /** A longer prefix holds at least as many occurrences. */
  lemma CountCharPrefix(s: string, i: nat, j: nat, c: char)
    requires i <= j <= |s|
    ensures CountChar(s[..i], c) <= CountChar(s[..j], c)
  {
    assert s[..j] == s[..i] + s[i..j];
    CountCharAppend(s[..i], s[i..j], c);
  }

  lemma {:induction false} NoCharCount(s: string, c: char)
    requires forall j :: 0 <= j < |s| ==> s[j] != c
    ensures CountChar(s, c) == 0
  {
    if s != [] {
      NoCharCount(s[1..], c);
    }
  }

  /** `f` applied to every element, in order. */
  function MapSeq<A, B>(f: A -> B, xs: seq<A>): (r: seq<B>)
    ensures |r| == |xs|
    ensures forall k :: 0 <= k < |xs| ==> r[k] == f(xs[k])
  {
    seq(|xs|, k requires 0 <= k < |xs| => f(xs[k]))
  }

  lemma MapSeqSnoc<A, B>(f: A -> B, xs: seq<A>)
    requires xs != []
    ensures MapSeq(f, xs) == MapSeq(f, xs[..|xs| - 1]) + [f(xs[|xs| - 1])]
  {
    var init := xs[..|xs| - 1];
    assert forall k :: 0 <= k < |init| ==> init[k] == xs[k];
  }

  /** A prefix of a prefix is a prefix. */
  lemma PrefixOfPrefix<T>(xs: seq<T>, n: nat, k: nat)
    requires k <= n <= |xs|
    ensures xs[..n][..k] == xs[..k]
  {
    assert forall i :: 0 <= i < k ==> xs[..n][..k][i] == xs[i];
  }

  /** MapSeq over one more element of a prefix. */
  lemma MapSeqNext<A, B>(f: A -> B, xs: seq<A>, i: nat)
    requires i < |xs|
    ensures MapSeq(f, xs[..i + 1]) == MapSeq(f, xs[..i]) + [f(xs[i])]
  {
    MapSeqSnoc(f, xs[..i + 1]);
    assert xs[..i + 1][..i] == xs[..i];
  }
}
