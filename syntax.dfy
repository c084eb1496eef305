/** Syntax trees as the tools see them through the tree-sitter node API:
    a node has a kind, a byte range, a start and end point, its children
    in order and a map from field name to child position. The tree-sitter
    library that builds them is not part of this model. */
module Syntax {
  import opened Text

  /** TSPoint: 0-based row and column. */
  datatype Point = Point(row: nat, column: nat)

  datatype Node = Node(
    kind: string,
    startByte: nat,
    endByte: nat,
    start: Point,
    end: Point,
    children: seq<Node>,
    fields: map<string, nat>)

  /** ts_node_child_by_field_name: the child the field names, if any. */
  function ChildByField(n: Node, field: string): (r: Option<Node>)
    ensures r.Some? ==> r.value in n.children
  {
    if field in n.fields && n.fields[field] < |n.children| then Some(n.children[n.fields[field]])
    else None
  }

  /** The first child of `n` whose kind is `kind`. */
  function FirstChildOfKind(n: Node, kind: string): (r: Option<nat>)
    ensures r.Some? ==> r.value < |n.children| && n.children[r.value].kind == kind
    ensures r.Some? ==> forall j :: 0 <= j < r.value ==> n.children[j].kind != kind
    ensures r.None? ==> forall j :: 0 <= j < |n.children| ==> n.children[j].kind != kind
  {
    FirstOfKind(n.children, kind)
  }

  function FirstOfKind(ns: seq<Node>, kind: string): (r: Option<nat>)
    ensures r.Some? ==> r.value < |ns| && ns[r.value].kind == kind
    ensures r.Some? ==> forall j :: 0 <= j < r.value ==> ns[j].kind != kind
    ensures r.None? ==> forall j :: 0 <= j < |ns| ==> ns[j].kind != kind
  {
    if ns == [] then None
    else if ns[0].kind == kind then Some(0)
    else match FirstOfKind(ns[1..], kind)
      case None => None
      case Some(k) => Some(k + 1)
  }

  /** `source.substr(start, end - start)` for a node whose range lies in
      the source, as every node of a tree parsed from that source does;
      the empty string for any other node. */
  function NodeText(src: string, n: Node): string
  {
    if n.startByte <= n.endByte <= |src| then src[n.startByte..n.endByte] else ""
  }

  /** A node met during a walk, with its ancestors (the parent last). */
  datatype Visit = Visit(node: Node, ancestors: seq<Node>)

  /** The pre-order walk a tree cursor makes over the subtree of `n`:
      the node, then the walks of its children in order. */
  function Walk(n: Node, ancestors: seq<Node>): (r: seq<Visit>)
    ensures |r| >= 1 && r[0] == Visit(n, ancestors)
    decreases n, 1
  {
    [Visit(n, ancestors)] + WalkSeq(n.children, ancestors + [n])
  }

  function WalkSeq(ns: seq<Node>, ancestors: seq<Node>): seq<Visit>
    decreases ns, 0
  {
    if ns == [] then [] else Walk(ns[0], ancestors) + WalkSeq(ns[1..], ancestors)
  }

  /** The pending subtrees of an explicit-stack walk, walked in order. */
  function WalkAll(pending: seq<Visit>): seq<Visit>
  {
    if pending == [] then []
    else Walk(pending[0].node, pending[0].ancestors) + WalkAll(pending[1..])
  }

  /** The children of a visited node, as visits. */
  function ChildVisits(v: Visit): (r: seq<Visit>)
    ensures |r| == |v.node.children|
    ensures forall i :: 0 <= i < |r| ==> r[i] == Visit(v.node.children[i], v.ancestors + [v.node])
  {
    seq(|v.node.children|, i requires 0 <= i < |v.node.children| => Visit(v.node.children[i], v.ancestors + [v.node]))
  }

  lemma {:induction false} WalkAllAppend(a: seq<Visit>, b: seq<Visit>)
    ensures WalkAll(a + b) == WalkAll(a) + WalkAll(b)
    decreases |a|
  {
    if a == [] {
      assert a + b == b;
    } else {
      assert (a + b)[1..] == a[1..] + b;
      WalkAllAppend(a[1..], b);
    }
  }

  lemma {:induction false} WalkAllChildren(ns: seq<Node>, ancestors: seq<Node>, vs: seq<Visit>)
    requires |vs| == |ns|
    requires forall i :: 0 <= i < |ns| ==> vs[i] == Visit(ns[i], ancestors)
    ensures WalkAll(vs) == WalkSeq(ns, ancestors)
    decreases |ns|
  {
    if ns != [] {
      WalkAllChildren(ns[1..], ancestors, vs[1..]);
    }
  }

  /** One step of the explicit-stack walk: taking the first pending
      subtree yields its root, then its children, then the rest. */
  lemma WalkAllStep(pending: seq<Visit>)
    requires pending != []
    ensures WalkAll(pending) == [pending[0]] + WalkAll(ChildVisits(pending[0]) + pending[1..])
  {
    var v := pending[0];
    WalkAllAppend(ChildVisits(v), pending[1..]);
    WalkAllChildren(v.node.children, v.ancestors + [v.node], ChildVisits(v));
  }

  /** One step of a walk in progress: the visited prefix grows by the first
      pending subtree's root, and what is left to walk shrinks. */
  lemma WalkNext(whole: seq<Visit>, visited: seq<Visit>, pending: seq<Visit>)
    requires pending != [] && visited + WalkAll(pending) == whole
    ensures (visited + [pending[0]]) + WalkAll(ChildVisits(pending[0]) + pending[1..]) == whole
    ensures |WalkAll(ChildVisits(pending[0]) + pending[1..])| < |WalkAll(pending)|
    ensures (visited + [pending[0]])[..|visited|] == visited
  {
    WalkAllStep(pending);
    assert visited + ([pending[0]] + WalkAll(ChildVisits(pending[0]) + pending[1..]))
        == (visited + [pending[0]]) + WalkAll(ChildVisits(pending[0]) + pending[1..]);
  }

  /** The walk of a single root. */
  lemma WalkAllSingle(v: Visit)
    ensures WalkAll([v]) == Walk(v.node, v.ancestors)
  {
  }

  /** The walk visits exactly one entry per node of the subtree. */
  function Size(n: Node): nat
    decreases n, 1
  {
    1 + SizeSeq(n.children)
  }

  function SizeSeq(ns: seq<Node>): nat
    decreases ns, 0
  {
    if ns == [] then 0 else Size(ns[0]) + SizeSeq(ns[1..])
  }

  lemma {:induction false} WalkSize(n: Node, ancestors: seq<Node>)
    ensures |Walk(n, ancestors)| == Size(n)
    decreases n, 1
  {
    WalkSeqSize(n.children, ancestors + [n]);
  }

  lemma {:induction false} WalkSeqSize(ns: seq<Node>, ancestors: seq<Node>)
    ensures |WalkSeq(ns, ancestors)| == SizeSeq(ns)
    decreases ns, 0
  {
    if ns != [] {
      WalkSize(ns[0], ancestors);
      WalkSeqSize(ns[1..], ancestors);
    }
  }
}
