/** compute_layers of the dependency-graph tool: Kahn's topological sort
    with layer numbers. Nodes nothing includes start in layer 0; taking a
    node off the queue counts down the in-degree (the length of the
    included_by list) of each name it includes, and a name whose count
    reaches zero joins the queue one layer deeper. */
module DependencyLayers {
  import opened Ordering
  import opened DependencyGraph

  /** Reading a std::map<std::string, int> through operator[]: a missing
      key reads as 0. */
  function Get(m: map<string, int>, k: string): int
  {
    if k in m then m[k] else 0
  }

  /** The list std::map<int, std::vector<std::string>>::operator[] yields:
      empty for a missing layer. */
  function Slot(m: map<int, seq<string>>, layer: int): seq<string>
  {
    if layer in m then m[layer] else []
  }

  /** The in-degree a node starts with: the length of its included_by list
      (0 for a name the graph lacks, never set before it is decremented). */
  function Base(g: Graph, v: string): nat
  {
    if v in g then |g[v].includedBy| else 0
  }

  /** How often v is counted down when the nodes of p have been taken off
      the queue: once for each occurrence in their includes lists. */
  function Released(g: Graph, p: seq<string>, v: string): nat
  {
    if p == [] then 0 else Released(g, p[..|p| - 1], v) + Occurrences(v, Successors(g, p[|p| - 1]))
  }

  /** The counters compute_layers starts from: each node's in-degree. */
  function InitialDegrees(g: Graph): map<string, int>
  {
    map v | v in g :: |g[v].includedBy|
  }

  /** The counters after the names of s are counted down in turn; a name
      without a counter reads 0 before it is decremented. */
  function CountDown(m: map<string, int>, s: seq<string>): map<string, int>
  {
    if s == [] then m
    else
      var m' := CountDown(m, s[..|s| - 1]);
      m'[s[|s| - 1] := Get(m', s[|s| - 1]) - 1]
  }

  /** The counters once the nodes of p have been taken off the queue. */
  function Counts(g: Graph, p: seq<string>): map<string, int>
  {
    if p == [] then InitialDegrees(g) else CountDown(Counts(g, p[..|p| - 1]), Successors(g, p[|p| - 1]))
  }

  /** The in-degree counters after the nodes of p and the includes in
      extra have been counted down. */
  ghost predicate Counted(g: Graph, p: seq<string>, extra: seq<string>, inDegree: map<string, int>)
  {
    inDegree == CountDown(Counts(g, p), extra)
  }

  lemma {:induction false} CountDownValue(m: map<string, int>, s: seq<string>, v: string)
    ensures Get(CountDown(m, s), v) == Get(m, v) - Occurrences(v, s)
  {
    if s != [] {
      CountDownValue(m, s[..|s| - 1], v);
    }
  }

  lemma {:induction false} CountsValue(g: Graph, p: seq<string>, v: string)
    ensures Get(Counts(g, p), v) == Base(g, v) - Released(g, p, v)
  {
    if p != [] {
      CountsValue(g, p[..|p| - 1], v);
      CountDownValue(Counts(g, p[..|p| - 1]), Successors(g, p[|p| - 1]), v);
    }
  }

  /** A counter is the in-degree less the times it was counted down. */
  lemma CountedValue(g: Graph, p: seq<string>, extra: seq<string>, inDegree: map<string, int>, v: string)
    requires Counted(g, p, extra, inDegree)
    ensures Get(inDegree, v) == Base(g, v) - Released(g, p, v) - Occurrences(v, extra)
  {
    CountDownValue(Counts(g, p), extra, v);
    CountsValue(g, p, v);
  }

  /** A node of the graph has a layer exactly when its counter has reached
      zero: counters only go down, and the one step that reaches zero is
      the one that assigns the layer. */
  ghost predicate Pending(g: Graph, inDegree: map<string, int>, nodeLayers: map<string, int>)
  {
    forall v :: v in g ==> (v in nodeLayers <==> Get(inDegree, v) <= 0)
  }

  /** Every node that includes a layered node is layered in an earlier
      layer. */
  ghost predicate IncludersEarlier(g: Graph, nodeLayers: map<string, int>)
  {
    forall v, u :: v in nodeLayers && v in g && u in g[v].includedBy ==>
      u in nodeLayers && nodeLayers[u] < nodeLayers[v]
  }

  /** The layers lists: the nodes of p taken off the queue in order,
      grouped by layer. */
  function Group(p: seq<string>, nodeLayers: map<string, int>): map<int, seq<string>>
    requires forall x :: x in p ==> x in nodeLayers
  {
    if p == [] then map[]
    else
      var m := Group(p[..|p| - 1], nodeLayers);
      var x := p[|p| - 1];
      m[nodeLayers[x] := Slot(m, nodeLayers[x]) + [x]]
  }

  /** A node is in the list of a layer exactly when it was taken off the
      queue with that layer; taken off once, it is listed once. */
  /** The list of one layer after x is appended to it. */
  lemma SlotUpdate(m: map<int, seq<string>>, layer: int, s: seq<string>, other: int)
    ensures Slot(m[layer := s], other) == if other == layer then s else Slot(m, other)
  {
  }

  /** A node is in the list of a layer exactly when it was taken off the
      queue with that layer. */
  lemma {:induction false} GroupMembers(p: seq<string>, nodeLayers: map<string, int>, v: string, layer: int)
    requires forall x :: x in p ==> x in nodeLayers
    ensures v in Slot(Group(p, nodeLayers), layer) <==> v in p && nodeLayers[v] == layer
  {
    if p != [] {
      var init := p[..|p| - 1];
      var x := p[|p| - 1];
      GroupMembers(init, nodeLayers, v, layer);
      SlotUpdate(Group(init, nodeLayers), nodeLayers[x], Slot(Group(init, nodeLayers), nodeLayers[x]) + [x], layer);
      assert v in p <==> v in init || v == x by {
        assert p == init + [x];
      }
    }
  }

  /** Taken off the queue once, a node is listed once. */
  lemma {:induction false} GroupDistinct(p: seq<string>, nodeLayers: map<string, int>, layer: int)
    requires forall x :: x in p ==> x in nodeLayers
    requires Distinct(p)
    ensures Distinct(Slot(Group(p, nodeLayers), layer))
  {
    if p != [] {
      var init := p[..|p| - 1];
      var x := p[|p| - 1];
      assert Distinct(init);
      assert x !in init;
      GroupDistinct(init, nodeLayers, layer);
      var m := Group(init, nodeLayers);
      SlotUpdate(m, nodeLayers[x], Slot(m, nodeLayers[x]) + [x], layer);
      if layer == nodeLayers[x] {
        GroupMembers(init, nodeLayers, x, layer);
        DistinctSnoc(Slot(m, layer), x);
      }
    }
  }

  /** The layers lists of all nodes taken off the queue. */
  lemma Grouped(p: seq<string>, nodeLayers: map<string, int>, layers: map<int, seq<string>>)
    requires Distinct(p) && (forall x :: x in nodeLayers <==> x in p)
    requires layers == Group(p, nodeLayers)
    ensures forall v, layer :: v in Slot(layers, layer) <==> v in nodeLayers && nodeLayers[v] == layer
    ensures forall layer :: Distinct(Slot(layers, layer))
  {
    forall v, layer
      ensures v in Slot(layers, layer) <==> v in nodeLayers && nodeLayers[v] == layer
    {
      GroupMembers(p, nodeLayers, v, layer);
    }
    forall layer
      ensures Distinct(Slot(layers, layer))
    {
      GroupDistinct(p, nodeLayers, layer);
    }
  }

  lemma DistinctSnoc(s: seq<string>, x: string)
    requires Distinct(s) && x !in s
    ensures Distinct(s + [x])
  {
  }

  /** The grouping depends on the layers of the nodes of p only. */
  lemma {:induction false} GroupFrame(p: seq<string>, a: map<string, int>, b: map<string, int>)
    requires forall x :: x in p ==> x in a && x in b && a[x] == b[x]
    ensures Group(p, a) == Group(p, b)
  {
    if p != [] {
      GroupFrame(p[..|p| - 1], a, b);
    }
  }

  // ---------------------------------------------------------------------
  // Counting includers

  /** The number of positions of s holding a member of ns. */
  function CountIn(s: seq<string>, ns: set<string>): nat
  {
    if s == [] then 0 else CountIn(s[..|s| - 1], ns) + (if s[|s| - 1] in ns then 1 else 0)
  }

  lemma {:induction false} CountInFull(s: seq<string>, ns: set<string>)
    ensures CountIn(s, ns) <= |s|
    ensures CountIn(s, ns) == |s| <==> forall x :: x in s ==> x in ns
  {
    if s != [] {
      CountInFull(s[..|s| - 1], ns);
      assert s == s[..|s| - 1] + [s[|s| - 1]];
    }
  }

  lemma {:induction false} CountInNone(s: seq<string>, ns: set<string>)
    requires ns == {}
    ensures CountIn(s, ns) == 0
  {
    if s != [] {
      CountInNone(s[..|s| - 1], ns);
    }
  }

  lemma {:induction false} CountInAdd(s: seq<string>, ns: set<string>, x: string)
    requires x !in ns
    ensures CountIn(s, ns + {x}) == CountIn(s, ns) + Occurrences(x, s)
  {
    if s != [] {
      CountInAdd(s[..|s| - 1], ns, x);
    }
  }

  /** In a symmetric graph, counting down for the nodes of p removes from
      a node's in-degree exactly the entries of its included_by list that
      lie in p. */
  lemma {:induction false} ReleasedCount(g: Graph, p: seq<string>, v: string)
    requires Symmetric(g) && Distinct(p) && (forall x :: x in p ==> x in g) && v in g
    ensures Released(g, p, v) == CountIn(g[v].includedBy, Elems(p))
  {
    if p == [] {
      CountInNone(g[v].includedBy, Elems(p));
    } else {
      var init := p[..|p| - 1];
      var x := p[|p| - 1];
      assert Distinct(init);
      ReleasedCount(g, init, v);
      assert x !in Elems(init);
      CountInAdd(g[v].includedBy, Elems(init), x);
      assert Occurrences(v, Successors(g, x)) == Occurrences(x, g[v].includedBy);
      assert Elems(p) == Elems(init) + {x} by {
        assert p == init + [x];
      }
      assert Released(g, p, v) == Released(g, init, v) + Occurrences(v, Successors(g, x));
      assert CountIn(g[v].includedBy, Elems(p)) == CountIn(g[v].includedBy, Elems(init)) + Occurrences(x, g[v].includedBy);
    }
  }

  /** When the counter of v reaches zero while the includes of cur are
      counted down, after the nodes of done, every includer of v is among
      done and cur. */
  lemma HitZero(g: Graph, done: seq<string>, cur: string, v: string, j: nat)
    requires Symmetric(g) && Closed(g)
    requires Distinct(done) && (forall x :: x in done ==> x in g) && cur in g && cur !in done && v in g
    requires j < |g[cur].includes|
    requires Base(g, v) - Released(g, done, v) - Occurrences(v, g[cur].includes[..j + 1]) == 0
    ensures forall u :: u in g[v].includedBy ==> u in done || u == cur
  {
    var ib := g[v].includedBy;
    ReleasedCount(g, done, v);
    OccurrencesOfPrefix(v, g[cur].includes, j + 1);
    CountInAdd(ib, Elems(done), cur);
    CountInFull(ib, Elems(done) + {cur});
  }

  // ---------------------------------------------------------------------
  // compute_layers

  /** compute_layers. Every layered name is a node of the graph, in one
      layer only and listed once there; layer 0 holds exactly the nodes
      nothing includes. In a graph built by build_graph (symmetric and
      closed), every includer of a layered node is layered in an earlier
      layer. node_layers is returned alongside the layers. */
  method ComputeLayers(g: Graph) returns (layers: map<int, seq<string>>, nodeLayers: map<string, int>)
    ensures forall v :: v in nodeLayers ==> v in g && nodeLayers[v] >= 0
    ensures forall v, layer :: v in Slot(layers, layer) <==> v in nodeLayers && nodeLayers[v] == layer
    ensures forall layer :: Distinct(Slot(layers, layer))
    ensures forall v :: v in g && g[v].includedBy == [] ==> v in nodeLayers && nodeLayers[v] == 0
    ensures forall v :: v in nodeLayers && nodeLayers[v] == 0 ==> g[v].includedBy == []
    ensures Symmetric(g) && Closed(g) ==> IncludersEarlier(g, nodeLayers)
    ensures Symmetric(g) && Closed(g) ==> AfterIncluders(g, nodeLayers)
    ensures Symmetric(g) && Closed(g) && Acyclic(g) ==> nodeLayers.Keys == g.Keys
  {
    var keys := InOrder(g.Keys, false);
    InOrderDistinct(g.Keys, false);
    InOrderSorted(g.Keys, false);
    layers, nodeLayers := Kahn(g, keys);
  }

  /** The queue loop of compute_layers over the nodes in the given order. */
  method Kahn(g: Graph, keys: seq<string>) returns (layers: map<int, seq<string>>, nodeLayers: map<string, int>)
    requires Elems(keys) == g.Keys && Distinct(keys)
    ensures forall v :: v in nodeLayers ==> v in g && nodeLayers[v] >= 0
    ensures forall v, layer :: v in Slot(layers, layer) <==> v in nodeLayers && nodeLayers[v] == layer
    ensures forall layer :: Distinct(Slot(layers, layer))
    ensures forall v :: v in g && g[v].includedBy == [] ==> v in nodeLayers && nodeLayers[v] == 0
    ensures forall v :: v in nodeLayers && nodeLayers[v] == 0 ==> g[v].includedBy == []
    ensures Symmetric(g) && Closed(g) ==> IncludersEarlier(g, nodeLayers)
    ensures Symmetric(g) && Closed(g) ==> AfterIncluders(g, nodeLayers)
    ensures Symmetric(g) && Closed(g) && Acyclic(g) ==> nodeLayers.Keys == g.Keys
  {
    ghost var done, inDegree, level;
    layers, nodeLayers, done, inDegree, level := Drain(g, keys);
    Finish(g, done, inDegree, nodeLayers, level);
    Grouped(done, nodeLayers, layers);
  }

  /** The queue loop itself, run until the queue is empty. */
  method Drain(g: Graph, keys: seq<string>)
    returns (layers: map<int, seq<string>>, nodeLayers: map<string, int>,
             ghost done: seq<string>, inDegree: map<string, int>, ghost level: nat)
    requires Elems(keys) == g.Keys && Distinct(keys)
    ensures Queued(g, done, [], inDegree, nodeLayers, level)
    ensures forall x :: x in done ==> x in nodeLayers
    ensures layers == Group(done, nodeLayers)
  {
    var queue;
    queue, inDegree, nodeLayers := InitialLayer(g, keys);
    layers := map[];
    done := [];
    level := 0;
    while queue != []
      invariant Queued(g, done, queue, inDegree, nodeLayers, level)
      invariant forall x :: x in done ==> x in nodeLayers
      invariant layers == Group(done, nodeLayers)
      decreases |g.Keys - nodeLayers.Keys|, |queue|
    {
      ghost var before := nodeLayers.Keys;
      layers, queue, inDegree, nodeLayers, done, level := Step(g, layers, queue, inDegree, nodeLayers, done, level);
      FewerLayered(g.Keys, before, nodeLayers.Keys);
    }
  }

  lemma FewerLayered(u: set<string>, a: set<string>, b: set<string>)
    requires a <= b <= u
    ensures |u - b| <= |u - a|
    ensures a != b ==> |u - b| < |u - a|
  {
    assert u - a == (u - b) + (b - a);
    if a != b {
      var x :| x in b && x !in a;
      assert x in b - a;
    }
  }

  /** What holds before each round of the queue loop: done holds the
      nodes taken off the queue, in order; done and the queue hold each
      layered node once; the counters are the in-degrees less the includes
      of done; layers are taken off the queue in increasing order, the
      queue spanning at most two adjacent layers; and in a symmetric,
      closed graph every includer of a layered node is done, in an earlier
      layer. */
  ghost predicate Queued(g: Graph, done: seq<string>, queue: seq<string>, inDegree: map<string, int>,
                         nodeLayers: map<string, int>, level: nat)
  {
    && Members(done, queue, nodeLayers)
    && Ranked(g, nodeLayers)
    && Counted(g, done, [], inDegree)
    && Pending(g, inDegree, nodeLayers)
    && Ordered(done, queue, nodeLayers, level)
    && Tight(g, nodeLayers)
    && (Symmetric(g) && Closed(g) ==> Earlier(g, done, nodeLayers))
  }

  /** Every node past layer 0 was queued by a layered node it is included
      by, in the layer just before. */
  ghost predicate Tight(g: Graph, nodeLayers: map<string, int>)
  {
    forall v {:trigger QueuedFrom(g, nodeLayers, v)} :: v in nodeLayers && nodeLayers[v] > 0 ==> QueuedFrom(g, nodeLayers, v)
  }

  /** v is included by a layered node one layer up. */
  ghost predicate QueuedFrom(g: Graph, nodeLayers: map<string, int>, v: string)
    requires v in nodeLayers
  {
    exists u :: u in nodeLayers && v in Successors(g, u) && nodeLayers[u] + 1 == nodeLayers[v]
  }

  /** done and the queue hold each layered node, once. */
  ghost predicate Members(done: seq<string>, queue: seq<string>, nodeLayers: map<string, int>)
  {
    && Distinct(done + queue)
    && forall v :: v in nodeLayers <==> v in done || v in queue
  }

  /** Layered nodes are nodes of the graph, at layer 0 exactly when
      nothing includes them. */
  ghost predicate Ranked(g: Graph, nodeLayers: map<string, int>)
  {
    forall v :: v in nodeLayers ==> v in g && nodeLayers[v] >= 0 && (nodeLayers[v] == 0 <==> |g[v].includedBy| == 0)
  }

  /** Nodes done are at most at the current level, and the queue holds
      the current level and the next, in that order. */
  ghost predicate Ordered(done: seq<string>, queue: seq<string>, nodeLayers: map<string, int>, level: nat)
    requires forall v :: v in done || v in queue ==> v in nodeLayers
  {
    && (forall v :: v in done ==> nodeLayers[v] <= level)
    && (forall i :: 0 <= i < |queue| ==> level <= nodeLayers[queue[i]] <= level + 1)
    && (forall i, j :: 0 <= i < j < |queue| ==> nodeLayers[queue[i]] <= nodeLayers[queue[j]])
  }

  /** Every includer of a layered node is done, in an earlier layer. */
  ghost predicate Earlier(g: Graph, done: seq<string>, nodeLayers: map<string, int>)
  {
    forall v, u :: v in nodeLayers && v in g && u in g[v].includedBy ==>
      u in done && u in nodeLayers && nodeLayers[u] < nodeLayers[v]
  }

  /** The first loop of compute_layers: every node gets its in-degree, and
      those with none are queued, in key order, at layer 0. */
  method InitialLayer(g: Graph, keys: seq<string>)
    returns (queue: seq<string>, inDegree: map<string, int>, nodeLayers: map<string, int>)
    requires Elems(keys) == g.Keys && Distinct(keys)
    ensures Queued(g, [], queue, inDegree, nodeLayers, 0)
  {
    queue, inDegree, nodeLayers := [], map[], map[];
    var i := 0;
    while i < |keys|
      invariant 0 <= i <= |keys|
      invariant inDegree.Keys == Elems(keys[..i])
      invariant forall v :: v in inDegree ==> inDegree[v] == |g[v].includedBy|
      invariant Distinct(queue)
      invariant forall v :: v in nodeLayers <==> v in queue
      invariant forall v :: v in queue <==> v in keys[..i] && |g[v].includedBy| == 0
      invariant forall v :: v in nodeLayers ==> nodeLayers[v] == 0
    {
      var node := keys[i];
      assert node in Elems(keys);
      assert keys[..i + 1] == keys[..i] + [node];
      assert node !in keys[..i];
      inDegree := inDegree[node := |g[node].includedBy|];
      if inDegree[node] == 0 {
        DistinctSnoc(queue, node);
        queue := queue + [node];
        nodeLayers := nodeLayers[node := 0];
      }
      i := i + 1;
    }
    assert keys[..i] == keys;
    InitialQueued(g, keys, queue, inDegree, nodeLayers);
  }

  /** The state the first loop of compute_layers leaves is the queue
      loop's starting point. */
  lemma InitialQueued(g: Graph, keys: seq<string>, queue: seq<string>, inDegree: map<string, int>,
                      nodeLayers: map<string, int>)
    requires Elems(keys) == g.Keys
    requires inDegree.Keys == Elems(keys)
    requires forall v :: v in inDegree ==> inDegree[v] == |g[v].includedBy|
    requires Distinct(queue)
    requires forall v :: v in nodeLayers <==> v in queue
    requires forall v :: v in queue <==> v in keys && |g[v].includedBy| == 0
    requires forall v :: v in nodeLayers ==> nodeLayers[v] == 0
    ensures Queued(g, [], queue, inDegree, nodeLayers, 0)
  {
    InitialCounted(g, inDegree);
    InitialPending(g, keys, queue, inDegree, nodeLayers);
    InitialShape(g, keys, queue, nodeLayers);
  }

  /** The first loop's counters are the in-degrees. */
  lemma InitialCounted(g: Graph, inDegree: map<string, int>)
    requires inDegree.Keys == g.Keys
    requires forall v :: v in inDegree ==> inDegree[v] == |g[v].includedBy|
    ensures Counted(g, [], [], inDegree)
  {
    assert inDegree == InitialDegrees(g);
  }

  /** After the first loop exactly the nodes with counter 0 are layered. */
  lemma InitialPending(g: Graph, keys: seq<string>, queue: seq<string>, inDegree: map<string, int>,
                       nodeLayers: map<string, int>)
    requires Elems(keys) == g.Keys
    requires inDegree.Keys == Elems(keys)
    requires forall v :: v in inDegree ==> inDegree[v] == |g[v].includedBy|
    requires forall v :: v in nodeLayers <==> v in queue
    requires forall v :: v in queue <==> v in keys && |g[v].includedBy| == 0
    ensures Pending(g, inDegree, nodeLayers)
  {
    forall v | v in g
      ensures v in nodeLayers <==> Get(inDegree, v) <= 0
    {
      assert v in Elems(keys);
    }
  }

  /** The queue holds the nodes nothing includes, all at layer 0. */
  lemma InitialShape(g: Graph, keys: seq<string>, queue: seq<string>, nodeLayers: map<string, int>)
    requires Elems(keys) == g.Keys
    requires Distinct(queue)
    requires forall v :: v in nodeLayers <==> v in queue
    requires forall v :: v in queue <==> v in keys && |g[v].includedBy| == 0
    requires forall v :: v in nodeLayers ==> nodeLayers[v] == 0
    ensures Members([], queue, nodeLayers) && Ordered([], queue, nodeLayers, 0)
    ensures Ranked(g, nodeLayers) && Tight(g, nodeLayers) && Earlier(g, [], nodeLayers)
  {
    assert [] + queue == queue;
    InitialOrdered(queue, nodeLayers);
    InitialRanked(g, keys, queue, nodeLayers);
  }

  /** A queue of layer-0 nodes is ordered at level 0. */
  lemma InitialOrdered(queue: seq<string>, nodeLayers: map<string, int>)
    requires forall v :: v in nodeLayers <==> v in queue
    requires forall v :: v in nodeLayers ==> nodeLayers[v] == 0
    ensures Ordered([], queue, nodeLayers, 0)
  {
    forall i | 0 <= i < |queue|
      ensures queue[i] in nodeLayers && nodeLayers[queue[i]] == 0
    {
      assert queue[i] in queue;
    }
  }

  /** Everything queued at first is a node that nothing includes. */
  lemma InitialRanked(g: Graph, keys: seq<string>, queue: seq<string>, nodeLayers: map<string, int>)
    requires Elems(keys) == g.Keys
    requires forall v :: v in nodeLayers <==> v in queue
    requires forall v :: v in queue <==> v in keys && |g[v].includedBy| == 0
    requires forall v :: v in nodeLayers ==> nodeLayers[v] == 0
    ensures Ranked(g, nodeLayers) && Tight(g, nodeLayers) && Earlier(g, [], nodeLayers)
  {
    forall v | v in nodeLayers
      ensures v in g && g[v].includedBy == []
    {
      assert v in Elems(keys);
    }
  }

  /** One round of the queue loop: the front node is listed in its layer,
      and the includes it lists are counted down. */
  method Step(g: Graph, layers: map<int, seq<string>>, queue: seq<string>, inDegree: map<string, int>,
              nodeLayers: map<string, int>, ghost done: seq<string>, ghost level: nat)
    returns (layers': map<int, seq<string>>, queue': seq<string>, inDegree': map<string, int>,
             nodeLayers': map<string, int>, ghost done': seq<string>, ghost level': nat)
    requires queue != []
    requires Queued(g, done, queue, inDegree, nodeLayers, level)
    requires forall x :: x in done ==> x in nodeLayers
    requires layers == Group(done, nodeLayers)
    ensures Queued(g, done', queue', inDegree', nodeLayers', level')
    ensures forall x :: x in done' ==> x in nodeLayers'
    ensures layers' == Group(done', nodeLayers')
    ensures nodeLayers.Keys <= nodeLayers'.Keys <= g.Keys
    ensures nodeLayers'.Keys == nodeLayers.Keys ==> |queue'| < |queue|
  {
    var current := queue[0];
    var currentLayer := nodeLayers[current];
    layers' := layers[currentLayer := Slot(layers, currentLayer) + [current]];
    ghost var added;
    queue', inDegree', nodeLayers', added := Release(g, done, current, currentLayer, queue[1..], inDegree, nodeLayers);
    done' := done + [current];
    level' := currentLayer;
    StepKeeps(g, done, queue, inDegree, nodeLayers, level, added, queue', inDegree', nodeLayers');
    StepGroup(done, current, nodeLayers, nodeLayers', layers, layers');
  }

  /** Listing the node taken off the queue in its layer extends the
      grouping by one. */
  lemma StepGroup(done: seq<string>, cur: string, nodeLayers: map<string, int>, nodeLayers': map<string, int>,
                  layers: map<int, seq<string>>, layers': map<int, seq<string>>)
    requires forall x :: x in done ==> x in nodeLayers
    requires cur in nodeLayers
    requires forall v :: v in nodeLayers ==> v in nodeLayers' && nodeLayers'[v] == nodeLayers[v]
    requires layers == Group(done, nodeLayers)
    requires layers' == layers[nodeLayers[cur] := Slot(layers, nodeLayers[cur]) + [cur]]
    ensures layers' == Group(done + [cur], nodeLayers')
  {
    GroupFrame(done, nodeLayers, nodeLayers');
    assert (done + [cur])[..|done + [cur]| - 1] == done;
  }

  /** The inner loop of compute_layers: each name the current node
      includes is counted down, and one whose counter reaches zero is
      queued one layer below the current node. */
  method Release(g: Graph, ghost done: seq<string>, current: string, currentLayer: int, queue: seq<string>,
                 inDegree: map<string, int>, nodeLayers: map<string, int>)
    returns (queue': seq<string>, inDegree': map<string, int>, nodeLayers': map<string, int>, ghost added: seq<string>)
    requires current in g && current in nodeLayers && currentLayer == nodeLayers[current]
    requires Counted(g, done, [], inDegree) && Pending(g, inDegree, nodeLayers)
    ensures Counted(g, done, Successors(g, current), inDegree') && Pending(g, inDegree', nodeLayers')
    ensures queue' == queue + added && Freed(g, nodeLayers, current, added, nodeLayers')
    ensures Symmetric(g) && Closed(g) && Distinct(done) && (forall x :: x in done ==> x in g) && current !in done ==>
              forall v, u :: v in added && u in g[v].includedBy ==> u in done || u == current
  {
    var succs := Successors(g, current);
    queue', inDegree', nodeLayers', added := queue, inDegree, nodeLayers, [];
    assert succs[..0] == [];
    var j := 0;
    while j < |succs|
      invariant 0 <= j <= |succs|
      invariant Releasing(g, done, current, currentLayer, queue, nodeLayers, succs[..j], queue', inDegree', nodeLayers', added)
    {
      queue', inDegree', nodeLayers', added := ReleaseOne(g, done, current, currentLayer, queue, nodeLayers, succs, j,
                                                          queue', inDegree', nodeLayers', added);
      j := j + 1;
    }
    assert succs[..j] == succs;
  }

  /** What counting down the includes of cur did to the layering: the
      nodes in added, each listed once, are new nodes of the graph with a
      positive in-degree, included by cur and layered just below it; no
      other layer changed. */
  ghost predicate Freed(g: Graph, nodeLayers: map<string, int>, cur: string, added: seq<string>,
                        nodeLayers': map<string, int>)
  {
    && cur in nodeLayers && Distinct(added)
    && (forall v :: v in added ==> v in g && v !in nodeLayers && Base(g, v) > 0)
    && (forall v :: v in nodeLayers' <==> v in nodeLayers || v in added)
    && (forall v :: v in nodeLayers ==> nodeLayers'[v] == nodeLayers[v])
    && (forall v :: v in added ==> nodeLayers'[v] == nodeLayers[cur] + 1 && v in Successors(g, cur))
  }

  /** The inner loop's invariant once the includes in `counted` are
      counted down. */
  ghost predicate Releasing(g: Graph, done: seq<string>, current: string, currentLayer: int, queue: seq<string>,
                            nodeLayers: map<string, int>, counted: seq<string>,
                            queue': seq<string>, inDegree': map<string, int>, nodeLayers': map<string, int>, added: seq<string>)
  {
    && Counted(g, done, counted, inDegree') && Pending(g, inDegree', nodeLayers')
    && queue' == queue + added && Freed(g, nodeLayers, current, added, nodeLayers')
    && (Symmetric(g) && Closed(g) && Distinct(done) && (forall x :: x in done ==> x in g) && current !in done ==>
          forall v, u :: v in added && u in g[v].includedBy ==> u in done || u == current)
  }

  /** Counting down the j-th include keeps the counters in step. */
  lemma CountedNext(g: Graph, done: seq<string>, succs: seq<string>, j: nat,
                    inDegree: map<string, int>, inDegree': map<string, int>)
    requires j < |succs| && Counted(g, done, succs[..j], inDegree)
    requires inDegree' == inDegree[succs[j] := Get(inDegree, succs[j]) - 1]
    ensures Counted(g, done, succs[..j + 1], inDegree')
  {
    assert succs[..j + 1][..j] == succs[..j];
  }

  /** One iteration of the inner loop: the j-th include is counted down,
      and queued when its counter reaches zero. */
  method ReleaseOne(g: Graph, ghost done: seq<string>, current: string, currentLayer: int, ghost queue: seq<string>,
                    ghost nodeLayers: map<string, int>, succs: seq<string>, j: nat,
                    queue': seq<string>, inDegree': map<string, int>, nodeLayers': map<string, int>, ghost added: seq<string>)
    returns (queue'': seq<string>, inDegree'': map<string, int>, nodeLayers'': map<string, int>, ghost added': seq<string>)
    requires current in g && current in nodeLayers && currentLayer == nodeLayers[current]
    requires succs == Successors(g, current) && j < |succs|
    requires Releasing(g, done, current, currentLayer, queue, nodeLayers, succs[..j], queue', inDegree', nodeLayers', added)
    ensures Releasing(g, done, current, currentLayer, queue, nodeLayers, succs[..j + 1], queue'', inDegree'', nodeLayers'', added')
  {
    var dependent := succs[j];
    queue'', nodeLayers'', added' := queue', nodeLayers', added;
    inDegree'' := inDegree'[dependent := Get(inDegree', dependent) - 1];
    CountedNext(g, done, succs, j, inDegree', inDegree'');
    if inDegree''[dependent] == 0 {
      CountedValue(g, done, succs[..j + 1], inDegree'', dependent);
      OccurrencesPositive(dependent, succs[..j + 1]);
      if Symmetric(g) && Closed(g) && Distinct(done) && (forall x :: x in done ==> x in g) && current !in done {
        HitZero(g, done, current, dependent, j);
      }
      queue'' := queue' + [dependent];
      nodeLayers'' := nodeLayers'[dependent := currentLayer + 1];
      added' := added + [dependent];
      SnocAssoc(queue, added, dependent);
      FreedNext(g, nodeLayers, current, added, nodeLayers', dependent, nodeLayers'');
    }
    PendingNext(g, inDegree', nodeLayers', dependent, inDegree'', nodeLayers'');
  }

  lemma SnocAssoc(s: seq<string>, t: seq<string>, x: string)
    ensures (s + t) + [x] == s + (t + [x])
  {
  }

  /** Counting one name down keeps the layered nodes those whose counter
      is at zero or below. */
  lemma PendingNext(g: Graph, inDegree: map<string, int>, nodeLayers: map<string, int>, v: string,
                    inDegree': map<string, int>, nodeLayers': map<string, int>)
    requires Pending(g, inDegree, nodeLayers)
    requires inDegree' == inDegree[v := Get(inDegree, v) - 1]
    requires forall x :: x in nodeLayers' <==> x in nodeLayers || (x == v && inDegree'[v] == 0)
    ensures Pending(g, inDegree', nodeLayers')
  {
  }

  /** Queueing a name whose counter just reached zero extends what the
      inner loop did by that name. */
  lemma FreedNext(g: Graph, nodeLayers: map<string, int>, cur: string, added: seq<string>,
                  nodeLayers': map<string, int>, v: string, nodeLayers'': map<string, int>)
    requires Freed(g, nodeLayers, cur, added, nodeLayers')
    requires v in g && v !in nodeLayers' && Base(g, v) > 0 && v in Successors(g, cur)
    requires nodeLayers'' == nodeLayers'[v := nodeLayers[cur] + 1]
    ensures Freed(g, nodeLayers, cur, added + [v], nodeLayers'')
  {
    DistinctSnoc(added, v);
  }

  /** One round of the queue loop keeps the loop invariant. */
  lemma StepKeeps(g: Graph, done: seq<string>, queue: seq<string>, inDegree: map<string, int>,
                  nodeLayers: map<string, int>, level: nat, added: seq<string>,
                  queue': seq<string>, inDegree': map<string, int>, nodeLayers': map<string, int>)
    requires queue != [] && Members(done, queue, nodeLayers) && Ranked(g, nodeLayers)
    requires Ordered(done, queue, nodeLayers, level) && Tight(g, nodeLayers)
    requires Symmetric(g) && Closed(g) ==> Earlier(g, done, nodeLayers)
    requires Counted(g, done, Successors(g, queue[0]), inDegree') && Pending(g, inDegree', nodeLayers')
    requires queue' == queue[1..] + added && Freed(g, nodeLayers, queue[0], added, nodeLayers')
    requires Symmetric(g) && Closed(g) && Distinct(done) && (forall x :: x in done ==> x in g) && queue[0] !in done ==>
               forall v, u :: v in added && u in g[v].includedBy ==> u in done || u == queue[0]
    ensures Queued(g, done + [queue[0]], queue', inDegree', nodeLayers', nodeLayers[queue[0]])
    ensures nodeLayers.Keys <= nodeLayers'.Keys <= g.Keys
    ensures nodeLayers'.Keys == nodeLayers.Keys ==> |queue'| < |queue|
  {
    StepShape(g, done, queue, nodeLayers, level, added, queue', nodeLayers');
    StepCounted(g, done, queue[0], inDegree');
    if Symmetric(g) && Closed(g) {
      DoneFirst(done, queue);
      StepEarlier(g, done, queue[0], nodeLayers, level, added, nodeLayers');
    }
  }

  /** The bookkeeping of the queue, the layers and the queueing links
      after one round. */
  lemma StepShape(g: Graph, done: seq<string>, queue: seq<string>, nodeLayers: map<string, int>, level: nat,
                  added: seq<string>, queue': seq<string>, nodeLayers': map<string, int>)
    requires queue != [] && Members(done, queue, nodeLayers) && Ranked(g, nodeLayers)
    requires Ordered(done, queue, nodeLayers, level) && Tight(g, nodeLayers)
    requires queue' == queue[1..] + added && Freed(g, nodeLayers, queue[0], added, nodeLayers')
    ensures nodeLayers[queue[0]] >= level
    ensures Members(done + [queue[0]], queue', nodeLayers') && Ranked(g, nodeLayers')
    ensures Ordered(done + [queue[0]], queue', nodeLayers', nodeLayers[queue[0]]) && Tight(g, nodeLayers')
    ensures nodeLayers.Keys <= nodeLayers'.Keys <= g.Keys
    ensures nodeLayers'.Keys == nodeLayers.Keys ==> |queue'| < |queue|
  {
    StepMembers(done, queue, nodeLayers, added, queue', nodeLayers');
    StepRanked(g, queue[0], nodeLayers, added, nodeLayers');
    StepOrdered(g, done, queue, nodeLayers, level, added, queue', nodeLayers');
    StepTight(g, queue[0], nodeLayers, added, nodeLayers');
    if added != [] {
      assert added[0] in nodeLayers'.Keys - nodeLayers.Keys;
    }
  }

  lemma DoneFirst(done: seq<string>, queue: seq<string>)
    requires queue != [] && Distinct(done + queue)
    ensures Distinct(done) && queue[0] !in done
  {
    assert forall i :: 0 <= i < |done| ==> (done + queue)[i] == done[i];
    assert (done + queue)[|done|] == queue[0];
  }

  lemma StepMembers(done: seq<string>, queue: seq<string>, nodeLayers: map<string, int>, added: seq<string>,
                    queue': seq<string>, nodeLayers': map<string, int>)
    requires queue != [] && Members(done, queue, nodeLayers)
    requires queue' == queue[1..] + added && Distinct(added)
    requires forall v :: v in added ==> v !in nodeLayers
    requires forall v :: v in nodeLayers' <==> v in nodeLayers || v in added
    ensures Members(done + [queue[0]], queue', nodeLayers')
  {
    assert (done + [queue[0]]) + queue' == (done + queue) + added;
    DistinctAppend(done + queue, added);
  }

  lemma StepRanked(g: Graph, cur: string, nodeLayers: map<string, int>, added: seq<string>, nodeLayers': map<string, int>)
    requires Ranked(g, nodeLayers) && Freed(g, nodeLayers, cur, added, nodeLayers')
    ensures Ranked(g, nodeLayers')
  {
  }

  lemma StepCounted(g: Graph, done: seq<string>, cur: string, inDegree': map<string, int>)
    requires Counted(g, done, Successors(g, cur), inDegree')
    ensures Counted(g, done + [cur], [], inDegree')
  {
    assert (done + [cur])[..|done + [cur]| - 1] == done;
  }

  lemma StepOrdered(g: Graph, done: seq<string>, queue: seq<string>, nodeLayers: map<string, int>, level: nat,
                    added: seq<string>, queue': seq<string>, nodeLayers': map<string, int>)
    requires queue != [] && Members(done, queue, nodeLayers) && Ordered(done, queue, nodeLayers, level)
    requires queue' == queue[1..] + added && Freed(g, nodeLayers, queue[0], added, nodeLayers')
    ensures nodeLayers[queue[0]] >= level
    ensures Ordered(done + [queue[0]], queue', nodeLayers', nodeLayers[queue[0]])
  {
    var c := nodeLayers[queue[0]];
    assert 0 <= 0 < |queue|;
    forall i | 0 <= i < |queue'|
      ensures c <= nodeLayers'[queue'[i]] <= c + 1
    {
      if i < |queue| - 1 {
        assert queue'[i] == queue[i + 1];
        assert nodeLayers[queue[0]] <= nodeLayers[queue[i + 1]];
      } else {
        assert queue'[i] in added;
      }
    }
    forall i, j | 0 <= i < j < |queue'|
      ensures nodeLayers'[queue'[i]] <= nodeLayers'[queue'[j]]
    {
      if j < |queue| - 1 {
        assert queue'[i] == queue[i + 1] && queue'[j] == queue[j + 1];
      } else if i < |queue| - 1 {
        assert queue'[i] == queue[i + 1] && queue'[j] in added;
      } else {
        assert queue'[i] in added && queue'[j] in added;
      }
    }
  }

  lemma StepTight(g: Graph, cur: string, nodeLayers: map<string, int>, added: seq<string>,
                  nodeLayers': map<string, int>)
    requires Tight(g, nodeLayers) && Freed(g, nodeLayers, cur, added, nodeLayers')
    ensures Tight(g, nodeLayers')
  {
    forall v | v in nodeLayers' && nodeLayers'[v] > 0
      ensures QueuedFrom(g, nodeLayers', v)
    {
      if v in nodeLayers {
        assert QueuedFrom(g, nodeLayers, v);
        var u :| u in nodeLayers && v in Successors(g, u) && nodeLayers[u] + 1 == nodeLayers[v];
        assert nodeLayers'[u] == nodeLayers[u];
      } else {
        assert nodeLayers'[cur] == nodeLayers[cur];
      }
    }
  }

  lemma StepEarlier(g: Graph, done: seq<string>, cur: string, nodeLayers: map<string, int>, level: nat,
                    added: seq<string>, nodeLayers': map<string, int>)
    requires Earlier(g, done, nodeLayers) && Freed(g, nodeLayers, cur, added, nodeLayers')
    requires level <= nodeLayers[cur]
    requires forall v :: v in done ==> v in nodeLayers && nodeLayers[v] <= level
    requires forall v, u :: v in added && u in g[v].includedBy ==> u in done || u == cur
    ensures Earlier(g, done + [cur], nodeLayers')
  {
  }

  lemma DistinctAppend(s: seq<string>, added: seq<string>)
    requires Distinct(s) && Distinct(added) && forall v :: v in added ==> v !in s
    ensures Distinct(s + added)
  {
    var f := s + added;
    forall i, j | 0 <= i < j < |f|
      ensures f[i] != f[j]
    {
      if i < |s| <= j {
        assert f[j] == added[j - |s|] && f[i] == s[i];
        assert added[j - |s|] in added;
      } else if i >= |s| {
        assert f[i] == added[i - |s|] && f[j] == added[j - |s|];
      } else {
        assert f[i] == s[i] && f[j] == s[j];
      }
    }
  }

  /** When the queue runs empty, the layered nodes are exactly those taken
      off it. */
  lemma Finish(g: Graph, done: seq<string>, inDegree: map<string, int>, nodeLayers: map<string, int>, level: nat)
    requires Queued(g, done, [], inDegree, nodeLayers, level)
    ensures Distinct(done) && forall x :: x in nodeLayers <==> x in done
    ensures forall v :: v in nodeLayers ==> v in g && nodeLayers[v] >= 0
    ensures forall v :: v in g && g[v].includedBy == [] ==> v in nodeLayers && nodeLayers[v] == 0
    ensures forall v :: v in nodeLayers && nodeLayers[v] == 0 ==> g[v].includedBy == []
    ensures Symmetric(g) && Closed(g) ==> IncludersEarlier(g, nodeLayers)
    ensures Symmetric(g) && Closed(g) ==> AfterIncluders(g, nodeLayers)
    ensures Symmetric(g) && Closed(g) && Acyclic(g) ==> nodeLayers.Keys == g.Keys
  {
    assert done + [] == done;
    forall v | v in g && g[v].includedBy == []
      ensures v in nodeLayers
    {
      CountedValue(g, done, [], inDegree, v);
    }
    if Symmetric(g) && Closed(g) {
      LayerAfterIncluders(g, nodeLayers);
      if Acyclic(g) {
        Stuck(g, done, inDegree, nodeLayers);
        AllLayered(g, nodeLayers);
      }
    }
  }

  // ---------------------------------------------------------------------
  // Layers as longest paths

  /** The deepest layer among the names of ns, -1 when there are none. */
  function MaxLayer(ns: seq<string>, nodeLayers: map<string, int>): int
    requires forall x :: x in ns ==> x in nodeLayers
  {
    if ns == [] then -1
    else if |ns| == 1 then nodeLayers[ns[0]]
    else
      var m := MaxLayer(ns[..|ns| - 1], nodeLayers);
      var l := nodeLayers[ns[|ns| - 1]];
      if l > m then l else m
  }

  lemma {:induction false} MaxLayerBounds(ns: seq<string>, nodeLayers: map<string, int>)
    requires forall x :: x in ns ==> x in nodeLayers
    ensures forall x :: x in ns ==> nodeLayers[x] <= MaxLayer(ns, nodeLayers)
    ensures ns != [] ==> exists x :: x in ns && nodeLayers[x] == MaxLayer(ns, nodeLayers)
  {
    if |ns| > 1 {
      var init := ns[..|ns| - 1];
      var last := ns[|ns| - 1];
      assert ns == init + [last];
      MaxLayerBounds(init, nodeLayers);
      if nodeLayers[last] <= MaxLayer(init, nodeLayers) {
        var x :| x in init && nodeLayers[x] == MaxLayer(init, nodeLayers);
        assert x in ns;
      } else {
        assert last in ns;
      }
    } else if ns != [] {
      assert ns == [ns[0]];
      assert ns[0] in ns;
    }
  }

  /** Every includer of a layered node is layered, and the node sits one
      layer below the deepest of them (layer 0 when nothing includes it):
      its layer is the length of the longest chain of includers above it. */
  ghost predicate AfterIncluders(g: Graph, nodeLayers: map<string, int>)
  {
    forall v {:trigger MaxLayer(g[v].includedBy, nodeLayers)} :: v in nodeLayers ==>
      && v in g
      && (forall u :: u in g[v].includedBy ==> u in nodeLayers)
      && nodeLayers[v] == 1 + MaxLayer(g[v].includedBy, nodeLayers)
  }

  /** Includers earlier, and each node queued from a node one layer up:
      the layer is one past the deepest includer. */
  lemma LayerAfterIncluders(g: Graph, nodeLayers: map<string, int>)
    requires Symmetric(g) && Closed(g) && Ranked(g, nodeLayers) && Tight(g, nodeLayers)
    requires IncludersEarlier(g, nodeLayers)
    ensures AfterIncluders(g, nodeLayers)
  {
    forall v | v in nodeLayers
      ensures v in g && (forall u :: u in g[v].includedBy ==> u in nodeLayers)
      ensures nodeLayers[v] == 1 + MaxLayer(g[v].includedBy, nodeLayers)
    {
      LayerAfterIncludersAt(g, nodeLayers, v);
    }
  }

  /** The same for one layered node. */
  lemma LayerAfterIncludersAt(g: Graph, nodeLayers: map<string, int>, v: string)
    requires Symmetric(g) && Ranked(g, nodeLayers) && Tight(g, nodeLayers)
    requires IncludersEarlier(g, nodeLayers)
    requires v in nodeLayers
    ensures v in g && (forall u :: u in g[v].includedBy ==> u in nodeLayers)
    ensures nodeLayers[v] == 1 + MaxLayer(g[v].includedBy, nodeLayers)
  {
    var ib := g[v].includedBy;
    MaxLayerBounds(ib, nodeLayers);
    if nodeLayers[v] > 0 {
      assert QueuedFrom(g, nodeLayers, v);
      var u :| u in nodeLayers && v in Successors(g, u) && nodeLayers[u] + 1 == nodeLayers[v];
      OccurrencesPositive(v, g[u].includes);
      OccurrencesPositive(u, ib);
      assert nodeLayers[u] <= MaxLayer(ib, nodeLayers);
    }
  }

  // ---------------------------------------------------------------------
  // Acyclic graphs are layered completely

  /** No walk along includes links returns to where it started. */
  ghost predicate Acyclic(g: Graph)
  {
    forall c :: Walk(g, c) && |c| > 1 ==> c[0] != c[|c| - 1]
  }

  /** Every node left without a layer is included by another node left
      without one. */
  ghost predicate Blocked(g: Graph, nodeLayers: map<string, int>)
  {
    forall v {:trigger HasUnlayeredIncluder(g, nodeLayers, v)} ::
      v in g && v !in nodeLayers ==> HasUnlayeredIncluder(g, nodeLayers, v)
  }

  ghost predicate HasUnlayeredIncluder(g: Graph, nodeLayers: map<string, int>, v: string)
  {
    exists u :: u in g && u !in nodeLayers && v in g[u].includes
  }

  /** When the queue runs empty, an unlayered node's counter is still
      positive, so one of its includers was never taken off the queue. */
  lemma Stuck(g: Graph, done: seq<string>, inDegree: map<string, int>, nodeLayers: map<string, int>)
    requires Counted(g, done, [], inDegree) && Pending(g, inDegree, nodeLayers)
    requires Distinct(done) && (forall x :: x in done ==> x in g) && (forall x :: x in nodeLayers <==> x in done)
    requires Symmetric(g) && Closed(g)
    ensures Blocked(g, nodeLayers)
  {
    forall v | v in g && v !in nodeLayers
      ensures HasUnlayeredIncluder(g, nodeLayers, v)
    {
      var ib := g[v].includedBy;
      CountedValue(g, done, [], inDegree, v);
      ReleasedCount(g, done, v);
      CountInFull(ib, Elems(done));
      var u :| u in ib && u !in Elems(done);
      OccurrencesPositive(u, ib);
      OccurrencesPositive(v, g[u].includes);
    }
  }

  /** In an acyclic graph no node can be left blocked. */
  lemma AllLayered(g: Graph, nodeLayers: map<string, int>)
    requires Blocked(g, nodeLayers) && Acyclic(g) && nodeLayers.Keys <= g.Keys
    ensures nodeLayers.Keys == g.Keys
  {
    forall v | v in g
      ensures v in nodeLayers
    {
      if v !in nodeLayers {
        var p := Chain(g, nodeLayers, v, |g.Keys|);
        RepeatCycle(g, p);
      }
    }
  }

  /** Following unlayered includers back n steps from v gives a walk of
      n + 1 nodes ending in v. */
  lemma {:induction false} Chain(g: Graph, nodeLayers: map<string, int>, v: string, n: nat) returns (p: seq<string>)
    requires Blocked(g, nodeLayers) && v in g && v !in nodeLayers
    ensures |p| == n + 1 && Walk(g, p) && p[n] == v
    ensures forall x :: x in p ==> x in g
    decreases n
  {
    if n == 0 {
      p := [v];
    } else {
      assert HasUnlayeredIncluder(g, nodeLayers, v);
      var u :| u in g && u !in nodeLayers && v in g[u].includes;
      var q := Chain(g, nodeLayers, u, n - 1);
      p := q + [v];
      forall i | 0 <= i < |p| - 1
        ensures p[i] in g && p[i + 1] in g[p[i]].includes
      {
        assert p[i] == q[i];
        if i < n - 1 {
          assert p[i + 1] == q[i + 1];
        }
      }
    }
  }

  /** A walk longer than the graph has nodes visits some node twice, and
      the stretch between the visits is a cycle. */
  lemma RepeatCycle(g: Graph, p: seq<string>)
    requires Walk(g, p) && (forall x :: x in p ==> x in g) && |p| > |g.Keys|
    ensures !Acyclic(g)
  {
    if Distinct(p) {
      DistinctCard(p);
      assert Elems(p) <= g.Keys;
      SubsetCard(Elems(p), g.Keys);
      assert false;
    }
    var i, j :| 0 <= i < j < |p| && p[i] == p[j];
    var c := p[i..j + 1];
    assert Walk(g, c) by {
      forall k | 0 <= k < |c| - 1
        ensures c[k] in g && c[k + 1] in g[c[k]].includes
      {
        assert c[k] == p[i + k] && c[k + 1] == p[i + k + 1];
      }
    }
    assert c[0] == c[|c| - 1];
  }

  lemma {:induction false} DistinctCard(p: seq<string>)
    requires Distinct(p)
    ensures |Elems(p)| == |p|
  {
    if p != [] {
      var init := p[..|p| - 1];
      assert Distinct(init);
      DistinctCard(init);
      assert p == init + [p[|p| - 1]];
      assert Elems(p) == Elems(init) + {p[|p| - 1]};
      assert p[|p| - 1] !in Elems(init);
    }
  }

  lemma SubsetCard(a: set<string>, b: set<string>)
    requires a <= b
    ensures |a| <= |b|
  {
    assert b == a + (b - a);
  }

  // ---------------------------------------------------------------------
  // Layers and cycles

  /** In a symmetric, closed graph whose layering puts includers earlier,
      a walk ending in a layered node starts in a layered node at least one
      layer higher per step. */
  lemma {:induction false} WalkLayers(g: Graph, nodeLayers: map<string, int>, p: seq<string>)
    requires Symmetric(g) && Closed(g) && IncludersEarlier(g, nodeLayers) && Walk(g, p)
    requires p[|p| - 1] in nodeLayers && p[|p| - 1] in g
    ensures p[0] in nodeLayers && nodeLayers[p[0]] + |p| - 1 <= nodeLayers[p[|p| - 1]]
  {
    if |p| > 1 {
      var init := p[..|p| - 1];
      var u := p[|p| - 2];
      var v := p[|p| - 1];
      assert Walk(g, init) by {
        forall i | 0 <= i < |init| - 1
          ensures init[i] in g && init[i + 1] in g[init[i]].includes
        {
          assert init[i] == p[i] && init[i + 1] == p[i + 1];
        }
      }
      OccurrencesPositive(v, g[u].includes);
      OccurrencesPositive(u, g[v].includedBy);
      WalkLayers(g, nodeLayers, init);
    }
  }

  /** No node on a cycle of includes, nor any node reachable from one, is
      layered: Kahn's counters of a cycle never reach zero. */
  lemma CycleUnlayered(g: Graph, nodeLayers: map<string, int>, cycle: seq<string>, p: seq<string>)
    requires Symmetric(g) && Closed(g) && IncludersEarlier(g, nodeLayers)
    requires Walk(g, cycle) && |cycle| > 1 && cycle[0] == cycle[|cycle| - 1]
    requires Walk(g, p) && p[0] == cycle[0]
    ensures p[|p| - 1] !in nodeLayers
  {
    var last := p[|p| - 1];
    if last in nodeLayers {
      if |p| > 1 {
        assert last in g by {
          assert last in g[p[|p| - 2]].includes;
        }
      } else {
        assert last in g;
      }
      WalkLayers(g, nodeLayers, p);
      WalkLayers(g, nodeLayers, cycle);
    }
  }
}
