/** detect_cycles and tarjan_scc of the dependency-graph tool: Tarjan's
    strongly-connected-components search over the includes lists,
    started from every node in key order, and the cycles it reports (the
    components with more than one member). The state tarjan_scc threads
    through its by-reference parameters (index counter, stack, indices,
    lowlinks, on-stack set, components found so far) is one record that
    each call takes and returns. */
module DependencyCycles {
  import opened Ordering
  import opened DependencyGraph

  datatype Tarjan = Tarjan(index: nat, stack: seq<string>, indices: map<string, nat>,
                           lowlinks: map<string, nat>, onStack: set<string>, sccs: seq<seq<string>>)

  /** Every name the search can meet: the nodes and the names they include. */
  function Names(g: Graph): set<string>
  {
    g.Keys + (set x, s | x in g && s in g[x].includes :: s)
  }

  lemma SuccessorsNamed(g: Graph, v: string, s: string)
    requires s in Successors(g, v)
    ensures s in Names(g)
  {
  }

  /** The components one after the other. */
  function Flat(sccs: seq<seq<string>>): seq<string>
  {
    if sccs == [] then [] else Flat(sccs[..|sccs| - 1]) + sccs[|sccs| - 1]
  }

  /** The order in which the names of s come off a stack whose top is the
      end of s. */
  function Reverse(s: seq<string>): seq<string>
  {
    if s == [] then [] else Reverse(s[1..]) + [s[0]]
  }

  lemma {:induction false} ReverseIndex(s: seq<string>)
    ensures |Reverse(s)| == |s|
    ensures forall i :: 0 <= i < |s| ==> Reverse(s)[i] == s[|s| - 1 - i]
  {
    if s != [] {
      ReverseIndex(s[1..]);
    }
  }

  lemma ReverseStep(s: seq<string>, m: nat)
    requires 0 < m <= |s|
    ensures Reverse(s[m - 1..]) == Reverse(s[m..]) + [s[m - 1]]
  {
    assert s[m - 1..][1..] == s[m..];
  }

  // ---------------------------------------------------------------------
  // The invariant of the search

  /** Indices are handed out once each, below the counter, and a lowlink
      never exceeds its index. */
  ghost predicate Numbered(t: Tarjan)
  {
    && t.indices.Keys == t.lowlinks.Keys
    && (forall v :: v in t.indices ==> t.indices[v] < t.index && t.lowlinks[v] <= t.indices[v])
    && (forall v, w :: v in t.indices && w in t.indices && v != w ==> t.indices[v] != t.indices[w])
  }

  /** The stack holds numbered names in increasing order of index, and no
      lowlink on it lies below the index of its bottom. */
  ghost predicate Stacked(t: Tarjan)
  {
    && t.indices.Keys == t.lowlinks.Keys
    && t.onStack == Elems(t.stack)
    && Elems(t.stack) <= t.indices.Keys
    && (forall i, j :: 0 <= i < j < |t.stack| ==> t.indices[t.stack[i]] < t.indices[t.stack[j]])
    && (forall i :: 0 <= i < |t.stack| ==> t.lowlinks[t.stack[i]] >= t.indices[t.stack[0]])
  }

  /** Every numbered name is either on the stack or in exactly one of the
      components found, and no component is empty. */
  ghost predicate Partitioned(t: Tarjan)
  {
    && Distinct(Flat(t.sccs))
    && Elems(Flat(t.sccs)) !! t.onStack
    && Elems(Flat(t.sccs)) + t.onStack == t.indices.Keys
    && (forall i :: 0 <= i < |t.sccs| ==> t.sccs[i] != [])
  }

  ghost predicate Valid(g: Graph, t: Tarjan)
  {
    t.indices.Keys <= Names(g) && Numbered(t) && Stacked(t) && Partitioned(t)
  }

  lemma StackDistinct(t: Tarjan, i: int, j: int)
    requires Stacked(t) && 0 <= i < j < |t.stack|
    ensures t.stack[i] != t.stack[j]
  {
  }

  function Push(t: Tarjan, node: string): Tarjan
  {
    t.(index := t.index + 1, stack := t.stack + [node], indices := t.indices[node := t.index],
       lowlinks := t.lowlinks[node := t.index], onStack := t.onStack + {node})
  }

  /** Numbering a fresh name and pushing it keeps the invariant. */
  lemma PushValid(g: Graph, t: Tarjan, node: string)
    requires Valid(g, t) && node !in t.indices && node in Names(g)
    ensures Valid(g, Push(t, node))
  {
    PushNumbered(t, node);
    PushStacked(t, node);
    PushPartitioned(t, node);
  }

  lemma PushNumbered(t: Tarjan, node: string)
    requires Numbered(t) && node !in t.indices
    ensures Numbered(Push(t, node))
  {
  }

  lemma PushStacked(t: Tarjan, node: string)
    requires Numbered(t) && Stacked(t) && node !in t.indices
    ensures Stacked(Push(t, node))
  {
    var t1 := Push(t, node);
    assert Elems(t1.stack) == Elems(t.stack) + {node} by {
      assert forall x :: x in t1.stack <==> x in t.stack || x == node;
    }
    PushLows(t, node);
    PushOrder(t, node);
  }

  lemma PushLows(t: Tarjan, node: string)
    requires Numbered(t) && Stacked(t) && node !in t.indices
    ensures var t1 := Push(t, node);
      forall i :: 0 <= i < |t1.stack| ==> t1.lowlinks[t1.stack[i]] >= t1.indices[t1.stack[0]]
  {
    var t1 := Push(t, node);
    forall i | 0 <= i < |t1.stack|
      ensures t1.lowlinks[t1.stack[i]] >= t1.indices[t1.stack[0]]
    {
      if i < |t.stack| {
        assert t1.stack[i] == t.stack[i] && t1.stack[0] == t.stack[0];
      } else if t.stack != [] {
        assert t1.stack[0] == t.stack[0];
      }
    }
  }

  lemma PushOrder(t: Tarjan, node: string)
    requires Numbered(t) && Stacked(t) && node !in t.indices
    ensures var t1 := Push(t, node);
      forall i, j :: 0 <= i < j < |t1.stack| ==> t1.indices[t1.stack[i]] < t1.indices[t1.stack[j]]
  {
    var t1 := Push(t, node);
    forall i, j | 0 <= i < j < |t1.stack|
      ensures t1.indices[t1.stack[i]] < t1.indices[t1.stack[j]]
    {
      assert t1.stack[i] == t.stack[i];
    }
  }

  lemma PushPartitioned(t: Tarjan, node: string)
    requires Partitioned(t) && node !in t.indices
    ensures Partitioned(Push(t, node))
  {
  }

  function Min(a: nat, b: nat): nat
  {
    if a <= b then a else b
  }

  function Lower(t: Tarjan, node: string, x: nat): Tarjan
    requires node in t.lowlinks
  {
    t.(lowlinks := t.lowlinks[node := Min(t.lowlinks[node], x)])
  }

  /** Lowering the lowlink of a name on the stack to an index no smaller
      than the bottom's keeps the invariant. */
  lemma LowerValid(g: Graph, t: Tarjan, node: string, x: nat)
    requires Valid(g, t) && node in t.onStack && x >= t.indices[t.stack[0]]
    ensures Valid(g, Lower(t, node, x))
  {
    LowerStacked(t, node, x);
    var t1 := Lower(t, node, x);
    assert Numbered(t1);
    assert Partitioned(t1) by {
      assert t1.sccs == t.sccs && t1.onStack == t.onStack && t1.indices == t.indices;
    }
  }

  lemma LowerStacked(t: Tarjan, node: string, x: nat)
    requires Stacked(t) && node in t.onStack && x >= t.indices[t.stack[0]]
    ensures Stacked(Lower(t, node, x))
  {
  }

  // ---------------------------------------------------------------------
  // tarjan_scc

  /** The do-while loop of tarjan_scc that pops a component: names come
      off the stack down to and including the node at position k, in the
      order they are popped. */
  method PopComponent(t: Tarjan, node: string, k: nat) returns (t': Tarjan)
    requires k < |t.stack| && t.stack[k] == node && node !in t.stack[k + 1..]
    ensures t' == Popped(t, k)
  {
    var stack := t.stack;
    var onStack := t.onStack;
    var scc: seq<string> := [];
    var w := stack[|stack| - 1];
    stack := stack[..|stack| - 1];
    onStack := onStack - {w};
    scc := scc + [w];
    assert t.stack[|stack|..] == [w];
    while w != node
      invariant k <= |stack| < |t.stack| && stack == t.stack[..|stack|] && w == t.stack[|stack|]
      invariant scc == Reverse(t.stack[|stack|..])
      invariant onStack == t.onStack - Elems(t.stack[|stack|..])
      decreases |stack|
    {
      var m := |stack|;
      w := stack[m - 1];
      stack := stack[..m - 1];
      onStack := onStack - {w};
      ReverseStep(t.stack, m);
      assert Elems(t.stack[m - 1..]) == Elems(t.stack[m..]) + {w} by {
        assert t.stack[m - 1..] == [w] + t.stack[m..];
      }
      scc := scc + [w];
    }
    t' := t.(stack := stack, onStack := onStack, sccs := t.sccs + [scc]);
  }

  function Popped(t: Tarjan, k: nat): Tarjan
    requires k <= |t.stack|
  {
    t.(stack := t.stack[..k], onStack := t.onStack - Elems(t.stack[k..]), sccs := t.sccs + [Reverse(t.stack[k..])])
  }

  /** The names below position k and those from k up are apart. */
  lemma StackSplit(t: Tarjan, k: nat)
    requires Stacked(t) && k <= |t.stack|
    ensures Elems(t.stack) == Elems(t.stack[..k]) + Elems(t.stack[k..])
    ensures Elems(t.stack[..k]) !! Elems(t.stack[k..])
  {
    assert t.stack == t.stack[..k] + t.stack[k..];
    forall i, j | 0 <= i < k <= j < |t.stack|
      ensures t.stack[i] != t.stack[j]
    {
      StackDistinct(t, i, j);
    }
  }

  /** Popping a component keeps the invariant. */
  lemma PoppedValid(g: Graph, t: Tarjan, k: nat)
    requires Valid(g, t) && k < |t.stack|
    ensures Valid(g, Popped(t, k))
  {
    var t1 := Popped(t, k);
    assert Numbered(t1) by {
      assert t1.indices == t.indices && t1.lowlinks == t.lowlinks && t1.index == t.index;
    }
    PoppedStacked(t, k);
    PoppedPartitioned(t, k);
  }

  lemma PoppedStacked(t: Tarjan, k: nat)
    requires Stacked(t) && k < |t.stack|
    ensures Stacked(Popped(t, k))
  {
    StackSplit(t, k);
    var t1 := Popped(t, k);
    forall i | 0 <= i < |t1.stack|
      ensures t1.lowlinks[t1.stack[i]] >= t1.indices[t1.stack[0]]
    {
      assert t1.stack[i] == t.stack[i] && t1.stack[0] == t.stack[0];
    }
    forall i, j | 0 <= i < j < |t1.stack|
      ensures t1.indices[t1.stack[i]] < t1.indices[t1.stack[j]]
    {
      assert t1.stack[i] == t.stack[i] && t1.stack[j] == t.stack[j];
    }
  }

  lemma PoppedPartitioned(t: Tarjan, k: nat)
    requires Stacked(t) && Partitioned(t) && k < |t.stack|
    ensures Partitioned(Popped(t, k))
  {
    var top := t.stack[k..];
    var c := Reverse(top);
    assert Elems(top) <= t.onStack by {
      StackSplit(t, k);
    }
    StackIsDistinct(t);
    DistinctSlice(t.stack, k);
    ReverseFacts(top);
    DistinctConcat(Flat(t.sccs), c);
    ElemsConcat(Flat(t.sccs), c);
    assert Flat(Popped(t, k).sccs) == Flat(t.sccs) + c;
    assert |c| > 0;
  }

  lemma StackIsDistinct(t: Tarjan)
    requires Stacked(t)
    ensures Distinct(t.stack)
  {
  }

  lemma DistinctSlice(s: seq<string>, k: nat)
    requires Distinct(s) && k <= |s|
    ensures Distinct(s[k..])
  {
    forall i, j | 0 <= i < j < |s| - k
      ensures s[k..][i] != s[k..][j]
    {
      assert s[k..][i] == s[k + i] && s[k..][j] == s[k + j];
    }
  }

  /** Reversing keeps the names and their distinctness. */
  lemma ReverseFacts(s: seq<string>)
    ensures |Reverse(s)| == |s| && Elems(Reverse(s)) == Elems(s)
    ensures Distinct(s) ==> Distinct(Reverse(s))
  {
    ReverseIndex(s);
    var r := Reverse(s);
    forall x | x in s
      ensures x in r
    {
      var i :| 0 <= i < |s| && s[i] == x;
      assert r[|s| - 1 - i] == x;
    }
    if Distinct(s) {
      forall i, j | 0 <= i < j < |r|
        ensures r[i] != r[j]
      {
        assert r[i] == s[|s| - 1 - i] && r[j] == s[|s| - 1 - j];
      }
    }
  }

  lemma DistinctConcat(a: seq<string>, b: seq<string>)
    requires Distinct(a) && Distinct(b) && Elems(a) !! Elems(b)
    ensures Distinct(a + b)
  {
    var f := a + b;
    forall i, j | 0 <= i < j < |f|
      ensures f[i] != f[j]
    {
      if i < |a| <= j {
        assert f[i] == a[i] && f[j] == b[j - |a|];
        assert f[i] in Elems(a) && f[j] in Elems(b);
      } else if i >= |a| {
        assert f[i] == b[i - |a|] && f[j] == b[j - |a|];
      } else {
        assert f[i] == a[i] && f[j] == a[j];
      }
    }
  }

  lemma ElemsConcat(a: seq<string>, b: seq<string>)
    ensures Elems(a + b) == Elems(a) + Elems(b)
  {
    assert forall x :: x in a + b <==> x in a || x in b;
  }

  /** What holds of the state cur while tarjan_scc, called on node in
      state t, works through the successors of node: the invariant, the
      entries of t unchanged, node numbered with t's counter and every
      later name above it, node still on the stack right above t's stack,
      and t's components kept. */
  ghost predicate Frame(g: Graph, t: Tarjan, node: string, cur: Tarjan)
  {
    && Valid(g, cur)
    && t.indices.Keys == t.lowlinks.Keys
    && node !in t.indices
    && t.indices.Keys + {node} <= cur.indices.Keys
    && (forall v :: v in t.indices ==> cur.indices[v] == t.indices[v] && cur.lowlinks[v] == t.lowlinks[v])
    && cur.indices[node] == t.index && cur.index > t.index
    && (forall v :: v in cur.indices && v !in t.indices ==> cur.indices[v] >= t.index)
    && t.stack + [node] <= cur.stack
    && t.sccs <= cur.sccs
  }

  /** What tarjan_scc, called on node in state t, leaves behind in t': the
      invariant; the entries of t unchanged; node numbered with t's counter
      and every name numbered during the call above it; t's stack and
      components kept as prefixes. When node ends with its lowlink equal to
      its index it was the root of a component: the stack is back to t's
      and the last component found ends with node, the last name popped.
      Otherwise node stays on the stack right above t's stack. */
  ghost predicate Searched(g: Graph, t: Tarjan, node: string, t': Tarjan)
  {
    && Valid(g, t')
    && t.indices.Keys == t.lowlinks.Keys
    && t.indices.Keys + {node} <= t'.indices.Keys
    && (forall v :: v in t.indices ==> t'.indices[v] == t.indices[v] && t'.lowlinks[v] == t.lowlinks[v])
    && t'.indices[node] == t.index && t'.index > t.index
    && (forall v :: v in t'.indices && v !in t.indices ==> t'.indices[v] >= t.index)
    && t.stack <= t'.stack && t.sccs <= t'.sccs
    && (t'.lowlinks[node] == t'.indices[node] ==>
          t'.stack == t.stack && |t'.sccs| > |t.sccs| && Last(t'.sccs) == node)
    && (t'.lowlinks[node] < t'.indices[node] ==> t.stack + [node] <= t'.stack)
  }

  /** tarjan_scc: numbers node, pushes it, considers each successor in
      turn, then pops a component when node turns out to be its root. */
  method StrongConnect(g: Graph, node: string, t: Tarjan) returns (t': Tarjan)
    requires Valid(g, t) && node !in t.indices && node in Names(g)
    requires Tracked(g, t) && forall y :: y in t.onStack ==> Reach(g, y, node)
    ensures Searched(g, t, node, t') && SearchedReach(g, t, node, t')
    decreases |Names(g) - t.indices.Keys|, 1
  {
    PushFrame(g, t, node);
    PushReach(g, t, node);
    var cur := Push(t, node);
    var succs := Successors(g, node);
    var j := 0;
    while j < |succs|
      invariant 0 <= j <= |succs|
      invariant Frame(g, t, node, cur) && FrameReach(g, t, node, cur, succs[..j])
    {
      SuccessorsNamed(g, node, succs[j]);
      cur := Consider(g, node, succs[j], t, cur, succs[..j]);
      NextDone(succs, j);
      j := j + 1;
    }
    NextDone(succs, j);
    t' := Close(g, t, node, cur);
  }

  /** The successors considered so far, one more at a time. */
  lemma NextDone(succs: seq<string>, j: nat)
    requires j <= |succs|
    ensures j < |succs| ==> succs[..j + 1] == succs[..j] + [succs[j]]
    ensures j == |succs| ==> succs[..j] == succs
  {
  }

  /** The end of tarjan_scc: a node whose lowlink is still its index is
      the root of a component, which is popped. */
  method Close(g: Graph, t: Tarjan, node: string, cur: Tarjan) returns (t': Tarjan)
    requires Valid(g, t) && Tracked(g, t) && Frame(g, t, node, cur)
    requires FrameReach(g, t, node, cur, Successors(g, node))
    ensures Searched(g, t, node, t') && SearchedReach(g, t, node, t')
  {
    if cur.lowlinks[node] == cur.indices[node] {
      RootReady(g, t, node, cur);
      t' := PopComponent(cur, node, |t.stack|);
      RootPopped(g, t, node, cur);
      RootReach(g, t, node, cur);
    } else {
      NotRoot(g, t, node, cur);
      NotRootReach(g, t, node, cur);
      t' := cur;
    }
  }

  lemma PushFrame(g: Graph, t: Tarjan, node: string)
    requires Valid(g, t) && node !in t.indices && node in Names(g)
    ensures Frame(g, t, node, Push(t, node))
  {
    PushValid(g, t, node);
  }

  /** A root is still on the stack, right above the stack the call found,
      and only once. */
  lemma RootReady(g: Graph, t: Tarjan, node: string, cur: Tarjan)
    requires Frame(g, t, node, cur)
    ensures |t.stack| < |cur.stack| && cur.stack[|t.stack|] == node && node !in cur.stack[|t.stack| + 1..]
  {
    PrefixAt(t.stack, node, cur.stack);
    OnlyOnce(cur, |t.stack|);
  }

  lemma RootPopped(g: Graph, t: Tarjan, node: string, cur: Tarjan)
    requires Frame(g, t, node, cur) && cur.lowlinks[node] == cur.indices[node]
    ensures |t.stack| < |cur.stack| && Searched(g, t, node, Popped(cur, |t.stack|))
  {
    var k := |t.stack|;
    PrefixAt(t.stack, node, cur.stack);
    PoppedValid(g, cur, k);
    ReverseIndex(cur.stack[k..]);
    var t' := Popped(cur, k);
    assert Reverse(cur.stack[k..])[|cur.stack| - k - 1] == node;
    assert Last(t'.sccs) == node;
    assert t'.stack == t.stack;
    assert t.sccs <= t'.sccs;
    assert t'.indices == cur.indices && t'.lowlinks == cur.lowlinks && t'.index == cur.index;
  }

  lemma NotRoot(g: Graph, t: Tarjan, node: string, cur: Tarjan)
    requires Frame(g, t, node, cur) && cur.lowlinks[node] != cur.indices[node]
    ensures Searched(g, t, node, cur)
  {
    assert t.sccs <= cur.sccs && t.stack <= cur.stack by {
      PrefixAt(t.stack, node, cur.stack);
    }
  }

  /** The loop body of tarjan_scc for one successor s of node: an
      unnumbered s is searched and its lowlink taken; an s on the stack
      gives its index; any other s is left alone. */
  method Consider(g: Graph, node: string, s: string, t: Tarjan, cur: Tarjan, ghost done: seq<string>)
    returns (cur': Tarjan)
    requires Frame(g, t, node, cur) && s in Names(g) && s in Successors(g, node)
    requires FrameReach(g, t, node, cur, done)
    ensures Frame(g, t, node, cur') && FrameReach(g, t, node, cur', done + [s])
    decreases |Names(g) - t.indices.Keys|, 0
  {
    if s !in cur.indices {
      FewerLeft(Names(g), t.indices.Keys, cur.indices.Keys);
      ReachOnward(g, cur.onStack, node, s);
      var r := StrongConnect(g, s, cur);
      FrameAfterSearch(g, t, node, cur, s, r);
      LowerFrame(g, t, node, r, r.lowlinks[s]);
      GrownBySearch(g, cur, s, r);
      AfterSearchReach(g, t, node, cur, s, r, done);
      cur' := Lower(r, node, r.lowlinks[s]);
    } else if s in cur.onStack {
      OnStackAbove(cur, s);
      LowerFrame(g, t, node, cur, cur.indices[s]);
      OnStackReach(g, t, node, cur, s, done);
      cur' := Lower(cur, node, cur.indices[s]);
    } else {
      SettledOff(g, t, node, cur, s, done);
      cur' := cur;
    }
  }

  /** A successor searched from within the frame of node leaves the frame
      in place, with a lowlink no lower than the bottom of the stack. */
  lemma FrameAfterSearch(g: Graph, t: Tarjan, node: string, cur: Tarjan, s: string, r: Tarjan)
    requires Frame(g, t, node, cur) && s !in cur.indices && Searched(g, cur, s, r)
    ensures Frame(g, t, node, r)
    ensures r.lowlinks[s] >= r.indices[r.stack[0]]
  {
    PrefixAt(t.stack, node, cur.stack);
    assert Valid(g, r);
    assert t.indices.Keys == t.lowlinks.Keys;
    assert node !in t.indices;
    assert t.indices.Keys + {node} <= r.indices.Keys;
    assert (forall v :: v in t.indices ==> r.indices[v] == t.indices[v] && r.lowlinks[v] == t.lowlinks[v]);
    assert r.indices[node] == t.index && r.index > t.index;
    assert (forall v :: v in r.indices && v !in t.indices ==> r.indices[v] >= t.index);
    assert t.stack + [node] <= r.stack;
    assert t.sccs <= r.sccs;
    if r.lowlinks[s] < r.indices[s] {
      PrefixAt(cur.stack, s, r.stack);
    } else {
      assert r.stack[0] == cur.stack[0] && cur.stack[0] in cur.indices;
    }
  }

  /** The index of a name on the stack is no lower than the bottom's. */
  lemma OnStackAbove(t: Tarjan, s: string)
    requires Stacked(t) && s in t.onStack
    ensures t.stack != [] && t.indices[s] >= t.indices[t.stack[0]]
  {
    var i :| 0 <= i < |t.stack| && t.stack[i] == s;
    if i > 0 {
      assert t.indices[t.stack[0]] < t.indices[t.stack[i]];
    }
  }

  lemma LowerFrame(g: Graph, t: Tarjan, node: string, cur: Tarjan, x: nat)
    requires Frame(g, t, node, cur) && cur.stack != [] && x >= cur.indices[cur.stack[0]]
    ensures Frame(g, t, node, Lower(cur, node, x))
  {
    PrefixAt(t.stack, node, cur.stack);
    LowerValid(g, cur, node, x);
  }

  lemma PrefixAt(a: seq<string>, x: string, b: seq<string>)
    requires a + [x] <= b
    ensures |b| > |a| && b[..|a|] == a && b[|a|] == x && x in b
  {
    assert b[..|a|] == (a + [x])[..|a|];
  }

  /** A name on the stack occurs there once. */
  lemma OnlyOnce(t: Tarjan, k: nat)
    requires Stacked(t) && k < |t.stack|
    ensures t.stack[k] !in t.stack[k + 1..]
  {
  }

  /** The last name of the last component: the root popped last. */
  function Last(sccs: seq<seq<string>>): string
  {
    if sccs == [] || sccs[|sccs| - 1] == [] then "" else sccs[|sccs| - 1][|sccs[|sccs| - 1]| - 1]
  }

  /** A shrinking set of names left to number. */
  lemma FewerLeft(u: set<string>, a: set<string>, b: set<string>)
    requires a < b <= u
    ensures |u - b| < |u - a|
  {
    var x :| x in b && x !in a;
    assert u - a == (u - b) + (b - a);
    assert x in b - a;
  }

  // ---------------------------------------------------------------------
  // What the search knows about reachability

  /** The lowlink of x is the index of a name on the stack that x reaches. */
  ghost predicate LowReached(g: Graph, t: Tarjan, x: string)
  {
    x in t.lowlinks && exists y :: y in t.onStack && y in t.indices && t.indices[y] == t.lowlinks[x] && Reach(g, x, y)
  }

  /** The names of each component found reach one another. */
  ghost predicate Mutual(g: Graph, sccs: seq<seq<string>>)
  {
    forall i, x, y {:trigger Reach(g, x, y), sccs[i]} :: 0 <= i < |sccs| && x in sccs[i] && y in sccs[i] ==> Reach(g, x, y)
  }

  /** No includes link leaves the components found first, whichever number
      of them is taken. */
  ghost predicate ClosedPrefixes(g: Graph, sccs: seq<seq<string>>)
  {
    forall m :: 0 <= m <= |sccs| ==> SuccClosed(g, Elems(Flat(sccs[..m])))
  }

  /** The reachability invariant of the search: lowlinks witnessed on the
      stack, components strongly connected, and closed in the order found. */
  ghost predicate Tracked(g: Graph, t: Tarjan)
  {
    && (forall x {:trigger LowReached(g, t, x)} :: x in t.onStack ==> LowReached(g, t, x))
    && Mutual(g, t.sccs)
    && ClosedPrefixes(g, t.sccs)
  }

  /** The link to y has been accounted for in the lowlink of node: y is
      numbered, and if it is on the stack its index bounds that lowlink. */
  ghost predicate Settled(t: Tarjan, node: string, y: string)
  {
    y in t.indices && (y in t.onStack ==> node in t.lowlinks && t.lowlinks[node] <= t.indices[y])
  }

  ghost predicate ReachesInto(g: Graph, x: string, s: set<string>)
  {
    exists y :: y in s && Reach(g, x, y)
  }

  /** What cur knows about reachability while tarjan_scc, called on node in
      state t, has considered the successors done: every name on the stack
      reaches node, node reaches every name numbered since, and the links
      out of node and out of the names above it on the stack are settled. */
  ghost predicate FrameReach(g: Graph, t: Tarjan, node: string, cur: Tarjan, done: seq<string>)
  {
    && t.onStack == Elems(t.stack)
    && Tracked(g, cur)
    && (forall x {:trigger Reach(g, x, node)} :: x in cur.onStack ==> Reach(g, x, node))
    && (forall x {:trigger Reach(g, node, x)} :: x in cur.indices && cur.indices[x] >= t.index ==> Reach(g, node, x))
    && (forall x, y {:trigger Settled(cur, node, y), Successors(g, x)} ::
          x in cur.onStack && x in cur.indices && cur.indices[x] > t.index && y in Successors(g, x) ==>
          Settled(cur, node, y))
    && (forall y :: y in done ==> Settled(cur, node, y))
  }

  /** What tarjan_scc, called on node in state t, leaves behind about
      reachability: the invariant, node reaching every name numbered during
      the call, and, when node is not a root, every name it leaves on the
      stack reaching the stack it found, with its links settled. */
  ghost predicate SearchedReach(g: Graph, t: Tarjan, node: string, t': Tarjan)
  {
    && Tracked(g, t')
    && (forall x {:trigger Reach(g, node, x)} :: x in t'.indices && t'.indices[x] >= t.index ==> Reach(g, node, x))
    && (node in t'.indices && node in t'.lowlinks && t'.lowlinks[node] < t'.indices[node] ==>
          && (forall x {:trigger ReachesInto(g, x, t.onStack)} ::
                x in t'.onStack && x in t'.indices && t'.indices[x] >= t.index ==> ReachesInto(g, x, t.onStack))
          && (forall x, y {:trigger Settled(t', node, y), Successors(g, x)} ::
                x in t'.onStack && x in t'.indices && t'.indices[x] >= t.index && y in Successors(g, x) ==>
                Settled(t', node, y)))
  }

  /** How a search from inside a frame changes the state: entries kept,
      new names numbered from the old counter on, nothing popped earlier
      back on the stack. */
  ghost predicate Grown(cur: Tarjan, r: Tarjan)
  {
    && cur.indices.Keys == cur.lowlinks.Keys && r.indices.Keys == r.lowlinks.Keys
    && cur.indices.Keys <= r.indices.Keys
    && (forall v :: v in cur.indices ==> r.indices[v] == cur.indices[v] && r.lowlinks[v] == cur.lowlinks[v])
    && (forall v :: v in r.indices && v !in cur.indices ==> r.indices[v] >= cur.index)
    && cur.onStack <= r.onStack
    && (forall v :: v in r.onStack && v in cur.indices ==> v in cur.onStack)
  }

  lemma ReachOnward(g: Graph, s: set<string>, node: string, w: string)
    requires forall y :: y in s ==> Reach(g, y, node)
    requires w in Successors(g, node)
    ensures forall y :: y in s ==> Reach(g, y, w)
  {
    ReachEdge(g, node, w);
    forall y | y in s
      ensures Reach(g, y, w)
    {
      ReachTrans(g, y, node, w);
    }
  }

  /** Pushing node starts its frame. */
  lemma PushReach(g: Graph, t: Tarjan, node: string)
    requires Numbered(t) && t.onStack == Elems(t.stack) && t.onStack <= t.indices.Keys
    requires node !in t.indices && Tracked(g, t)
    requires forall y :: y in t.onStack ==> Reach(g, y, node)
    ensures FrameReach(g, t, node, Push(t, node), [])
  {
    var p := Push(t, node);
    ReachRefl(g, node);
    forall x {:trigger LowReached(g, p, x)} | x in p.onStack
      ensures LowReached(g, p, x)
    {
      if x == node {
        assert p.indices[node] == p.lowlinks[node];
      } else {
        assert LowReached(g, t, x);
        var y :| y in t.onStack && y in t.indices && t.indices[y] == t.lowlinks[x] && Reach(g, x, y);
        assert y in p.onStack && p.indices[y] == p.lowlinks[x];
      }
    }
    assert Tracked(g, p) by {
      assert p.sccs == t.sccs;
    }
    assert forall x :: x in p.onStack ==> Reach(g, x, node);
    forall x | x in p.indices && p.indices[x] >= t.index
      ensures Reach(g, node, x)
    {
      assert x == node;
    }
    assert forall x, y :: x in p.onStack && x in p.indices && p.indices[x] > t.index && y in Successors(g, x) ==>
      Settled(p, node, y);
  }

  /** Within a frame, the names on the stack below node are those of the
      stack the call found, and those numbered since lie above them. */
  lemma StackBelow(g: Graph, t: Tarjan, node: string, cur: Tarjan)
    requires Frame(g, t, node, cur) && t.onStack == Elems(t.stack)
    ensures forall x :: x in cur.onStack ==> (x in t.onStack <==> cur.indices[x] < t.index)
    ensures forall x :: x in cur.onStack && cur.indices[x] >= t.index ==> x in Elems(cur.stack[|t.stack|..])
  {
    PrefixAt(t.stack, node, cur.stack);
    forall x | x in cur.onStack
      ensures (x in t.onStack <==> cur.indices[x] < t.index)
      ensures cur.indices[x] >= t.index ==> x in Elems(cur.stack[|t.stack|..])
    {
      StackBelowAt(t, node, cur, x);
    }
  }

  lemma StackBelowAt(t: Tarjan, node: string, cur: Tarjan, x: string)
    requires Stacked(cur) && t.onStack == Elems(t.stack) && x in cur.onStack
    requires |cur.stack| > |t.stack| && cur.stack[..|t.stack|] == t.stack && cur.stack[|t.stack|] == node
    requires node in cur.indices && cur.indices[node] == t.index
    ensures x in t.onStack <==> cur.indices[x] < t.index
    ensures cur.indices[x] >= t.index ==> x in Elems(cur.stack[|t.stack|..])
  {
    var k := |t.stack|;
    var i :| 0 <= i < |cur.stack| && cur.stack[i] == x;
    if i < k {
      assert x == t.stack[i];
      assert cur.indices[cur.stack[i]] < cur.indices[cur.stack[k]];
    } else {
      if i > k {
        assert cur.indices[cur.stack[k]] < cur.indices[cur.stack[i]];
      }
      assert cur.stack[k..][i - k] == x;
      forall j | 0 <= j < k
        ensures t.stack[j] != x
      {
        assert cur.stack[j] == t.stack[j];
        StackDistinct(cur, j, i);
      }
    }
  }

  lemma SettledKept(cur: Tarjan, r: Tarjan, node: string, y: string)
    requires Grown(cur, r) && node in cur.indices && Settled(cur, node, y)
    ensures Settled(r, node, y)
  {
  }

  lemma SettledLower(r: Tarjan, node: string, x: nat, y: string)
    requires node in r.lowlinks && Settled(r, node, y)
    ensures Settled(Lower(r, node, x), node, y)
  {
  }

  /** A link settled for s is settled for node once node takes the lowlink
      of s. */
  lemma SettledVia(r: Tarjan, s: string, node: string, y: string)
    requires node in r.lowlinks && s in r.lowlinks && Settled(r, s, y)
    ensures Settled(Lower(r, node, r.lowlinks[s]), node, y)
  {
  }

  /** The names of a prefix of the components are among those of all. */
  lemma {:induction false} FlatPrefixElems(a: seq<seq<string>>, b: seq<seq<string>>)
    requires a <= b
    ensures Elems(Flat(a)) <= Elems(Flat(b))
  {
    if |a| < |b| {
      var init := b[..|b| - 1];
      assert a <= init;
      FlatPrefixElems(a, init);
      assert Flat(b) == Flat(init) + b[|b| - 1];
      ElemsConcat(Flat(init), b[|b| - 1]);
    } else {
      assert a == b;
    }
  }

  /** A search started from within a frame grows the state. */
  lemma GrownBySearch(g: Graph, cur: Tarjan, s: string, r: Tarjan)
    requires Valid(g, cur) && s !in cur.indices && Searched(g, cur, s, r)
    ensures Grown(cur, r)
  {
    assert cur.onStack <= r.onStack by {
      forall v | v in cur.onStack
        ensures v in r.onStack
      {
        var i :| 0 <= i < |cur.stack| && cur.stack[i] == v;
        assert r.stack[i] == v;
      }
    }
    FlatPrefixElems(cur.sccs, r.sccs);
  }

  /** The successor s was unnumbered: the search from s grows the state,
      and node takes the lowlink of s. */
  lemma AfterSearchReach(g: Graph, t: Tarjan, node: string, cur: Tarjan, s: string, r: Tarjan, done: seq<string>)
    requires Frame(g, t, node, cur) && FrameReach(g, t, node, cur, done)
    requires s !in cur.indices && s in Successors(g, node)
    requires Searched(g, cur, s, r) && SearchedReach(g, cur, s, r) && Grown(cur, r)
    ensures FrameReach(g, t, node, Lower(r, node, r.lowlinks[s]), done + [s])
  {
    var r' := Lower(r, node, r.lowlinks[s]);
    ReachEdge(g, node, s);
    var root := r.lowlinks[s] == r.indices[s];
    if root {
      assert r.onStack == cur.onStack by {
        assert Elems(r.stack) == Elems(cur.stack);
      }
    }
    AfterSearchTracked(g, t, node, cur, s, r);
    forall x | x in r'.onStack
      ensures Reach(g, x, node)
    {
      if x !in cur.indices {
        assert ReachesInto(g, x, cur.onStack);
        var y :| y in cur.onStack && Reach(g, x, y);
        ReachTrans(g, x, y, node);
      }
    }
    forall x | x in r'.indices && r'.indices[x] >= t.index
      ensures Reach(g, node, x)
    {
      if x !in cur.indices {
        ReachTrans(g, node, s, x);
      }
    }
    AfterSearchSettled(g, t, node, cur, s, r, done);
  }

  /** After the search from s, the links settled before stay settled, and
      those out of the names the search left on the stack are settled
      through the lowlink of s. */
  lemma AfterSearchSettled(g: Graph, t: Tarjan, node: string, cur: Tarjan, s: string, r: Tarjan, done: seq<string>)
    requires Frame(g, t, node, cur) && FrameReach(g, t, node, cur, done)
    requires s !in cur.indices
    requires Searched(g, cur, s, r) && SearchedReach(g, cur, s, r) && Grown(cur, r)
    requires r.lowlinks[s] == r.indices[s] ==> r.onStack == cur.onStack
    ensures var r' := Lower(r, node, r.lowlinks[s]);
      && (forall x, y {:trigger Settled(r', node, y), Successors(g, x)} ::
            x in r'.onStack && x in r'.indices && r'.indices[x] > t.index && y in Successors(g, x) ==>
            Settled(r', node, y))
      && (forall y :: y in done + [s] ==> Settled(r', node, y))
  {
    var r' := Lower(r, node, r.lowlinks[s]);
    forall x, y | x in r'.onStack && x in r'.indices && r'.indices[x] > t.index && y in Successors(g, x)
      ensures Settled(r', node, y)
    {
      if x in cur.indices {
        SettledKept(cur, r, node, y);
        SettledLower(r, node, r.lowlinks[s], y);
      } else {
        SettledVia(r, s, node, y);
      }
    }
    forall y | y in done + [s]
      ensures Settled(r', node, y)
    {
      if y in done {
        SettledKept(cur, r, node, y);
        SettledLower(r, node, r.lowlinks[s], y);
      }
    }
  }

  lemma AfterSearchTracked(g: Graph, t: Tarjan, node: string, cur: Tarjan, s: string, r: Tarjan)
    requires Frame(g, t, node, cur) && s !in cur.indices && s in Successors(g, node)
    requires Searched(g, cur, s, r) && SearchedReach(g, cur, s, r)
    ensures Tracked(g, Lower(r, node, r.lowlinks[s]))
  {
    if r.lowlinks[s] < r.lowlinks[node] {
      assert r.lowlinks[s] < r.indices[s];
      PrefixAt(cur.stack, s, r.stack);
      assert LowReached(g, r, s);
      var y :| y in r.onStack && y in r.indices && r.indices[y] == r.lowlinks[s] && Reach(g, s, y);
      ReachEdge(g, node, s);
      ReachTrans(g, node, s, y);
      LowerTracked(g, r, node, r.lowlinks[s], y);
    } else {
      LowerTracked(g, r, node, r.lowlinks[s], node);
    }
  }

  /** Lowering the lowlink of node to the index of a name w on the stack
      that node reaches keeps the reachability invariant. */
  lemma LowerTracked(g: Graph, r: Tarjan, node: string, v: nat, w: string)
    requires Tracked(g, r) && node in r.lowlinks
    requires v < r.lowlinks[node] ==> w in r.onStack && w in r.indices && r.indices[w] == v && Reach(g, node, w)
    ensures Tracked(g, Lower(r, node, v))
  {
    var r' := Lower(r, node, v);
    forall x {:trigger LowReached(g, r', x)} | x in r'.onStack
      ensures LowReached(g, r', x)
    {
      if x == node && v < r.lowlinks[node] {
        assert r'.indices[w] == r'.lowlinks[node];
      } else {
        assert LowReached(g, r, x);
        var y :| y in r.onStack && y in r.indices && r.indices[y] == r.lowlinks[x] && Reach(g, x, y);
        assert r'.indices[y] == r'.lowlinks[x];
      }
    }
  }

  /** The successor s was on the stack: node takes the index of s. */
  lemma OnStackReach(g: Graph, t: Tarjan, node: string, cur: Tarjan, s: string, done: seq<string>)
    requires Frame(g, t, node, cur) && FrameReach(g, t, node, cur, done)
    requires s in cur.onStack && s in Successors(g, node)
    ensures FrameReach(g, t, node, Lower(cur, node, cur.indices[s]), done + [s])
  {
    var c' := Lower(cur, node, cur.indices[s]);
    ReachEdge(g, node, s);
    LowerTracked(g, cur, node, cur.indices[s], s);
    forall x, y | x in c'.onStack && x in c'.indices && c'.indices[x] > t.index && y in Successors(g, x)
      ensures Settled(c', node, y)
    {
      SettledLower(cur, node, cur.indices[s], y);
    }
    forall y | y in done + [s]
      ensures Settled(c', node, y)
    {
      if y in done {
        SettledLower(cur, node, cur.indices[s], y);
      }
    }
  }

  /** A successor numbered and off the stack needs nothing. */
  lemma SettledOff(g: Graph, t: Tarjan, node: string, cur: Tarjan, s: string, done: seq<string>)
    requires FrameReach(g, t, node, cur, done)
    requires s in cur.indices && s !in cur.onStack
    ensures FrameReach(g, t, node, cur, done + [s])
  {
  }

  /** A name in the top of a stack, from position k up, is on it with an
      index no lower than that at k. */
  lemma InTop(t: Tarjan, k: nat, x: string)
    requires Stacked(t) && k < |t.stack| && x in Elems(t.stack[k..])
    ensures x in t.onStack && t.indices[x] >= t.indices[t.stack[k]]
  {
    var i :| 0 <= i < |t.stack| - k && t.stack[k..][i] == x;
    if i > 0 {
      assert t.indices[t.stack[k]] < t.indices[t.stack[k + i]];
    }
  }

  /** A root pops a component: its names reach one another through node,
      and no link leaves it but into the components found before. */
  lemma RootReach(g: Graph, t: Tarjan, node: string, cur: Tarjan)
    requires Valid(g, t) && Tracked(g, t) && Frame(g, t, node, cur)
    requires FrameReach(g, t, node, cur, Successors(g, node))
    requires cur.lowlinks[node] == cur.indices[node] && |t.stack| < |cur.stack|
    requires Searched(g, t, node, Popped(cur, |t.stack|))
    ensures SearchedReach(g, t, node, Popped(cur, |t.stack|))
  {
    var k := |t.stack|;
    var t' := Popped(cur, k);
    var top := cur.stack[k..];
    ReverseFacts(top);
    SameStackTracked(g, t, t');
    forall x | x in Reverse(top)
      ensures Reach(g, x, node) && Reach(g, node, x)
    {
      assert x in Elems(top);
      InTop(cur, k, x);
      PrefixAt(t.stack, node, cur.stack);
    }
    MutualGrow(g, cur.sccs, Reverse(top), node);
    RootClosed(g, t, node, cur);
  }

  /** Names left on the same stack keep the witnesses of their lowlinks. */
  lemma SameStackTracked(g: Graph, t: Tarjan, t': Tarjan)
    requires Tracked(g, t) && Valid(g, t) && Valid(g, t') && t'.stack == t.stack
    requires forall v :: v in t.indices ==> v in t'.indices && t'.indices[v] == t.indices[v] && t'.lowlinks[v] == t.lowlinks[v]
    ensures forall x {:trigger LowReached(g, t', x)} :: x in t'.onStack ==> LowReached(g, t', x)
  {
    forall x {:trigger LowReached(g, t', x)} | x in t'.onStack
      ensures LowReached(g, t', x)
    {
      assert LowReached(g, t, x);
      var y :| y in t.onStack && y in t.indices && t.indices[y] == t.lowlinks[x] && Reach(g, x, y);
      assert t'.indices[y] == t'.lowlinks[x];
    }
  }

  /** A component whose names all reach and are reached from one hub
      keeps the components strongly connected. */
  lemma MutualGrow(g: Graph, sccs: seq<seq<string>>, c: seq<string>, hub: string)
    requires Mutual(g, sccs)
    requires forall x :: x in c ==> Reach(g, x, hub) && Reach(g, hub, x)
    ensures Mutual(g, sccs + [c])
  {
    var sccs' := sccs + [c];
    forall i, x, y | 0 <= i < |sccs'| && x in sccs'[i] && y in sccs'[i]
      ensures Reach(g, x, y)
    {
      if i < |sccs| {
        assert sccs'[i] == sccs[i];
      } else {
        ReachTrans(g, x, hub, y);
      }
    }
  }

  lemma RootClosed(g: Graph, t: Tarjan, node: string, cur: Tarjan)
    requires Valid(g, t) && Frame(g, t, node, cur)
    requires FrameReach(g, t, node, cur, Successors(g, node))
    requires cur.lowlinks[node] == cur.indices[node] && |t.stack| < |cur.stack|
    ensures ClosedPrefixes(g, Popped(cur, |t.stack|).sccs)
  {
    TopLinks(g, t, node, cur);
    TopClosed(g, cur, |t.stack|);
    PrefixesGrow(g, cur.sccs, Reverse(cur.stack[|t.stack|..]));
  }

  /** A closed list of components stays closed with one more component
      that keeps the whole closed. */
  lemma PrefixesGrow(g: Graph, sccs: seq<seq<string>>, c: seq<string>)
    requires ClosedPrefixes(g, sccs) && SuccClosed(g, Elems(Flat(sccs + [c])))
    ensures ClosedPrefixes(g, sccs + [c])
  {
    var sccs' := sccs + [c];
    forall m | 0 <= m <= |sccs'|
      ensures SuccClosed(g, Elems(Flat(sccs'[..m])))
    {
      if m <= |sccs| {
        assert sccs'[..m] == sccs[..m];
      } else {
        assert sccs'[..m] == sccs';
      }
    }
  }

  /** Every link out of the names a root pops ends among them or in a
      component found before. */
  lemma TopLinks(g: Graph, t: Tarjan, node: string, cur: Tarjan)
    requires Valid(g, t) && Frame(g, t, node, cur)
    requires FrameReach(g, t, node, cur, Successors(g, node))
    requires cur.lowlinks[node] == cur.indices[node] && |t.stack| < |cur.stack|
    ensures forall x, y :: x in Elems(cur.stack[|t.stack|..]) && y in Successors(g, x) ==>
      y in Elems(Flat(cur.sccs)) + Elems(cur.stack[|t.stack|..])
  {
    StackBelow(g, t, node, cur);
    forall x, y | x in Elems(cur.stack[|t.stack|..]) && y in Successors(g, x)
      ensures y in Elems(Flat(cur.sccs)) + Elems(cur.stack[|t.stack|..])
    {
      TopSucc(g, t, node, cur, x, y);
    }
  }

  /** The components found, with the top of the stack from k up as one
      more, are closed when no link leaves that top but into them. */
  lemma TopClosed(g: Graph, cur: Tarjan, k: nat)
    requires k <= |cur.stack| && ClosedPrefixes(g, cur.sccs)
    requires forall x, y :: x in Elems(cur.stack[k..]) && y in Successors(g, x) ==>
      y in Elems(Flat(cur.sccs)) + Elems(cur.stack[k..])
    ensures SuccClosed(g, Elems(Flat(Popped(cur, k).sccs)))
  {
    var top := cur.stack[k..];
    ReverseFacts(top);
    assert Flat(Popped(cur, k).sccs) == Flat(cur.sccs) + Reverse(top);
    ElemsConcat(Flat(cur.sccs), Reverse(top));
    assert cur.sccs[..|cur.sccs|] == cur.sccs;
  }

  /** A link out of the popped component ends in it or in a component
      found before: its end is numbered, and if on the stack, not below
      the root. */
  lemma TopSucc(g: Graph, t: Tarjan, node: string, cur: Tarjan, x: string, y: string)
    requires Frame(g, t, node, cur)
    requires FrameReach(g, t, node, cur, Successors(g, node))
    requires cur.lowlinks[node] == cur.indices[node] && |t.stack| < |cur.stack|
    requires forall x :: x in cur.onStack && cur.indices[x] >= t.index ==> x in Elems(cur.stack[|t.stack|..])
    requires x in Elems(cur.stack[|t.stack|..]) && y in Successors(g, x)
    ensures y in Elems(Flat(cur.sccs)) + Elems(cur.stack[|t.stack|..])
  {
    PrefixAt(t.stack, node, cur.stack);
    InTop(cur, |t.stack|, x);
    if x != node {
      assert cur.indices[x] != cur.indices[node];
    }
    assert Settled(cur, node, y);
  }

  /** node is not a root: what it leaves on the stack reaches, through the
      witness of its lowlink, the stack it found. */
  lemma NotRootReach(g: Graph, t: Tarjan, node: string, cur: Tarjan)
    requires Valid(g, t) && Frame(g, t, node, cur)
    requires FrameReach(g, t, node, cur, Successors(g, node))
    requires cur.lowlinks[node] != cur.indices[node]
    ensures SearchedReach(g, t, node, cur)
  {
    PrefixAt(t.stack, node, cur.stack);
    StackBelow(g, t, node, cur);
    assert node in cur.onStack;
    assert LowReached(g, cur, node);
    var w :| w in cur.onStack && w in cur.indices && cur.indices[w] == cur.lowlinks[node] && Reach(g, node, w);
    assert w in t.onStack;
    forall x | x in cur.onStack && x in cur.indices && cur.indices[x] >= t.index
      ensures ReachesInto(g, x, t.onStack)
    {
      ReachTrans(g, x, node, w);
    }
    forall x, y | x in cur.onStack && x in cur.indices && cur.indices[x] >= t.index && y in Successors(g, x)
      ensures Settled(cur, node, y)
    {
      if x != node {
        assert cur.indices[x] != cur.indices[node];
      }
    }
  }

  // ---------------------------------------------------------------------
  // detect_cycles

  /** The components found by starting tarjan_scc from every node not yet
      numbered, in key order. Every node and every name it includes lands
      in exactly one component, and each component is non-empty. */
  method Components(g: Graph) returns (sccs: seq<seq<string>>)
    ensures Distinct(Flat(sccs))
    ensures g.Keys <= Elems(Flat(sccs)) <= Names(g)
    ensures forall i :: 0 <= i < |sccs| ==> sccs[i] != []
    ensures Mutual(g, sccs) && ClosedPrefixes(g, sccs)
  {
    InOrderSorted(g.Keys, false);
    sccs := SearchAll(g, InOrder(g.Keys, false));
  }

  /** The loop of detect_cycles over the given starting names. */
  method SearchAll(g: Graph, starts: seq<string>) returns (sccs: seq<seq<string>>)
    requires Elems(starts) <= Names(g)
    ensures Distinct(Flat(sccs))
    ensures Elems(starts) <= Elems(Flat(sccs)) <= Names(g)
    ensures forall i :: 0 <= i < |sccs| ==> sccs[i] != []
    ensures Mutual(g, sccs) && ClosedPrefixes(g, sccs)
  {
    var t := Tarjan(0, [], map[], map[], {}, []);
    assert ClosedPrefixes(g, t.sccs) by {
      assert forall m :: 0 <= m <= 0 ==> t.sccs[..m] == [];
    }
    var i := 0;
    while i < |starts|
      invariant 0 <= i <= |starts|
      invariant Valid(g, t) && t.stack == [] && Tracked(g, t)
      invariant forall m :: 0 <= m < i ==> starts[m] in t.indices
    {
      t := StartFrom(g, starts, i, t);
      i := i + 1;
    }
    Finished(g, t);
    sccs := t.sccs;
  }

  /** One start of the loop: a name not yet numbered is searched from the
      top level, on an empty stack, and the search empties it again (its
      root cannot have a lowlink below its own index). */
  method StartFrom(g: Graph, starts: seq<string>, i: nat, t: Tarjan) returns (t': Tarjan)
    requires i < |starts| && Elems(starts) <= Names(g)
    requires Valid(g, t) && t.stack == [] && Tracked(g, t)
    requires forall m :: 0 <= m < i ==> starts[m] in t.indices
    ensures Valid(g, t') && t'.stack == [] && Tracked(g, t')
    ensures forall m :: 0 <= m <= i ==> starts[m] in t'.indices
  {
    t' := t;
    if starts[i] !in t.indices {
      assert starts[i] in Elems(starts);
      t' := StrongConnect(g, starts[i], t);
    }
  }

  /** With the stack empty, every numbered name lies in exactly one
      component. */
  lemma Finished(g: Graph, t: Tarjan)
    requires Valid(g, t) && t.stack == []
    ensures Distinct(Flat(t.sccs)) && Elems(Flat(t.sccs)) == t.indices.Keys <= Names(g)
    ensures forall i :: 0 <= i < |t.sccs| ==> t.sccs[i] != []
  {
    assert t.onStack == {};
  }

  /** The components with more than one member, in the order found. */
  function Cycles(sccs: seq<seq<string>>): (r: seq<seq<string>>)
  {
    if sccs == [] then []
    else Cycles(sccs[..|sccs| - 1]) + (if |sccs[|sccs| - 1]| > 1 then [sccs[|sccs| - 1]] else [])
  }

  /** A component is reported exactly when it has more than one member. */
  lemma {:induction false} CyclesExact(sccs: seq<seq<string>>, c: seq<string>)
    ensures c in Cycles(sccs) <==> c in sccs && |c| > 1
  {
    if sccs != [] {
      CyclesExact(sccs[..|sccs| - 1], c);
      assert sccs == sccs[..|sccs| - 1] + [sccs[|sccs| - 1]];
    }
  }

  /** Reporting keeps the names of the reported components distinct. */
  lemma {:induction false} CyclesDistinct(sccs: seq<seq<string>>)
    requires Distinct(Flat(sccs))
    ensures Distinct(Flat(Cycles(sccs)))
    ensures Elems(Flat(Cycles(sccs))) <= Elems(Flat(sccs))
  {
    if sccs != [] {
      var init := sccs[..|sccs| - 1];
      var c := sccs[|sccs| - 1];
      assert Flat(sccs) == Flat(init) + c;
      DistinctParts(Flat(init), c);
      ElemsConcat(Flat(init), c);
      CyclesDistinct(init);
      if |c| > 1 {
        var f := Flat(Cycles(init));
        assert Flat(Cycles(sccs)) == f + c;
        DistinctConcat(f, c);
        ElemsConcat(f, c);
      } else {
        assert Cycles(sccs) == Cycles(init);
      }
    }
  }

  lemma DistinctParts(a: seq<string>, b: seq<string>)
    requires Distinct(a + b)
    ensures Distinct(a) && Distinct(b) && Elems(a) !! Elems(b)
  {
    var f := a + b;
    forall i, j | 0 <= i < j < |a|
      ensures a[i] != a[j]
    {
      assert f[i] == a[i] && f[j] == a[j];
    }
    forall i, j | 0 <= i < j < |b|
      ensures b[i] != b[j]
    {
      assert f[|a| + i] == b[i] && f[|a| + j] == b[j];
    }
    forall i, j | 0 <= i < |a| && 0 <= j < |b|
      ensures a[i] != b[j]
    {
      assert f[i] == a[i] && f[|a| + j] == b[j];
    }
  }

  /** detect_cycles: the components of more than one member. No name lies
      in two reported cycles; the names of a reported cycle reach one
      another, and every name that reaches and is reached from one of them
      is in it; every two distinct names that reach each other are
      reported together. */
  method DetectCycles(g: Graph) returns (cycles: seq<seq<string>>, ghost sccs: seq<seq<string>>)
    ensures cycles == Cycles(sccs)
    ensures Distinct(Flat(sccs)) && g.Keys <= Elems(Flat(sccs)) <= Names(g)
    ensures forall c :: c in cycles ==> |c| > 1 && Elems(c) <= Names(g)
    ensures Distinct(Flat(cycles))
    ensures forall c, x, y :: c in cycles && x in c && y in c ==> Reach(g, x, y)
    ensures forall c, x, z :: c in cycles && x in c && Reach(g, x, z) && Reach(g, z, x) ==> z in c
    ensures forall x, y :: x != y && Reach(g, x, y) && Reach(g, y, x) ==> exists c :: c in cycles && x in c && y in c
  {
    var all := Components(g);
    sccs := all;
    cycles := [];
    var i := 0;
    while i < |all|
      invariant 0 <= i <= |all|
      invariant cycles == Cycles(all[..i])
    {
      assert all[..i + 1][..i] == all[..i];
      if |all[i]| > 1 {
        cycles := cycles + [all[i]];
      }
      i := i + 1;
    }
    assert all[..i] == all;
    CyclesDistinct(all);
    forall c | c in cycles
      ensures |c| > 1 && Elems(c) <= Names(g)
    {
      CyclesExact(all, c);
      var k :| 0 <= k < |all| && all[k] == c;
      FlatHolds(all, k);
    }
    CyclesMeaning(g, all);
  }

  /** The reported cycles of components found by the search are the
      strongly connected groups of more than one name. */
  lemma CyclesMeaning(g: Graph, sccs: seq<seq<string>>)
    requires Distinct(Flat(sccs)) && g.Keys <= Elems(Flat(sccs))
    requires Mutual(g, sccs) && ClosedPrefixes(g, sccs)
    ensures forall c, x, y :: c in Cycles(sccs) && x in c && y in c ==> Reach(g, x, y)
    ensures forall c, x, z :: c in Cycles(sccs) && x in c && Reach(g, x, z) && Reach(g, z, x) ==> z in c
    ensures forall x, y :: x != y && Reach(g, x, y) && Reach(g, y, x) ==> exists c :: c in Cycles(sccs) && x in c && y in c
  {
    forall c, x, y | c in Cycles(sccs) && x in c && y in c
      ensures Reach(g, x, y)
    {
      CyclesExact(sccs, c);
      var k :| 0 <= k < |sccs| && sccs[k] == c;
    }
    forall c, x, z | c in Cycles(sccs) && x in c && Reach(g, x, z) && Reach(g, z, x)
      ensures z in c
    {
      CyclesExact(sccs, c);
      var k :| 0 <= k < |sccs| && sccs[k] == c;
      Maximal(g, sccs, k, x, z);
    }
    forall x, y | x != y && Reach(g, x, y) && Reach(g, y, x)
      ensures exists c :: c in Cycles(sccs) && x in c && y in c
    {
      Reported(g, sccs, x, y);
    }
  }

  /** Two distinct names that reach each other lie in one component of more
      than one member. */
  lemma Reported(g: Graph, sccs: seq<seq<string>>, x: string, y: string)
    requires Distinct(Flat(sccs)) && g.Keys <= Elems(Flat(sccs)) && ClosedPrefixes(g, sccs)
    requires x != y && Reach(g, x, y) && Reach(g, y, x)
    ensures exists c :: c in Cycles(sccs) && x in c && y in c
  {
    ReachOther(g, x, y);
    FlatWhere(sccs, x);
    var k :| 0 <= k < |sccs| && x in sccs[k];
    Maximal(g, sccs, k, x, y);
    TwoMembers(sccs[k], x, y);
    CyclesExact(sccs, sccs[k]);
  }

  /** A name that reaches a different one is a node of the graph. */
  lemma ReachOther(g: Graph, x: string, y: string)
    requires x != y && Reach(g, x, y)
    ensures x in g
  {
    var p :| Walk(g, p) && p[0] == x && p[|p| - 1] == y;
    assert |p| > 1;
  }

  lemma TwoMembers(c: seq<string>, x: string, y: string)
    requires x != y && x in c && y in c
    ensures |c| > 1
  {
  }

  /** A component is all the names that reach and are reached from one of
      its members: no link leaves the components found up to it, so what
      one of its names reaches was found no later, and what reaches back
      was found no earlier. */
  lemma Maximal(g: Graph, sccs: seq<seq<string>>, k: nat, x: string, z: string)
    requires Distinct(Flat(sccs)) && ClosedPrefixes(g, sccs)
    requires k < |sccs| && x in sccs[k] && Reach(g, x, z) && Reach(g, z, x)
    ensures z in sccs[k]
  {
    var j := FoundNoLater(g, sccs, k, x, z);
    if j < k {
      var i := FoundNoLater(g, sccs, j, z, x);
      assert x in Elems(sccs[i]) && x in Elems(sccs[k]);
      FlatApart(sccs, i, k);
      assert false;
    }
  }

  /** What a name of component m reaches lies in a component found no
      later than m. */
  lemma FoundNoLater(g: Graph, sccs: seq<seq<string>>, m: nat, a: string, b: string) returns (j: nat)
    requires ClosedPrefixes(g, sccs) && m < |sccs| && a in sccs[m] && Reach(g, a, b)
    ensures j <= m && b in sccs[j]
  {
    var upTo := sccs[..m + 1];
    FlatHolds(upTo, m);
    assert upTo[m] == sccs[m];
    assert SuccClosed(g, Elems(Flat(upTo)));
    ReachClosed(g, Elems(Flat(upTo)), a, b);
    FlatWhere(upTo, b);
    j :| 0 <= j < |upTo| && b in upTo[j];
    assert upTo[j] == sccs[j];
  }

  /** A name of the components lies in one of them. */
  lemma {:induction false} FlatWhere(sccs: seq<seq<string>>, x: string)
    requires x in Elems(Flat(sccs))
    ensures exists j :: 0 <= j < |sccs| && x in sccs[j]
  {
    var init := sccs[..|sccs| - 1];
    assert Flat(sccs) == Flat(init) + sccs[|sccs| - 1];
    if x !in sccs[|sccs| - 1] {
      assert x in Elems(Flat(init));
      FlatWhere(init, x);
      var j :| 0 <= j < |init| && x in init[j];
      assert x in sccs[j];
    }
  }

  /** With the names distinct, two components share no name. */
  lemma {:induction false} FlatApart(sccs: seq<seq<string>>, i: nat, j: nat)
    requires Distinct(Flat(sccs)) && i < j < |sccs|
    ensures Elems(sccs[i]) !! Elems(sccs[j])
  {
    var n := |sccs| - 1;
    var init := sccs[..n];
    assert Flat(sccs) == Flat(init) + sccs[n];
    DistinctParts(Flat(init), sccs[n]);
    assert init[i] == sccs[i];
    if j < n {
      assert init[j] == sccs[j];
      FlatApart(init, i, j);
    } else {
      FlatHolds(init, i);
    }
  }

  lemma {:induction false} FlatHolds(sccs: seq<seq<string>>, k: nat)
    requires k < |sccs|
    ensures Elems(sccs[k]) <= Elems(Flat(sccs))
  {
    var init := sccs[..|sccs| - 1];
    assert Flat(sccs) == Flat(init) + sccs[|sccs| - 1];
    if k < |sccs| - 1 {
      FlatHolds(init, k);
    }
  }
}
