/** From the arc table to the graph of nodes (src/fcdump/fc_graph.c:381-404 and 533-570), and what the
    cycle detection on the nodes says about the addresses of the arcs. */
module Linking {
  import opened ArcMerge
  import opened CallGraph

  predicate Known(fncs: seq<Function>, addr: int) {
    exists i :: 0 <= i < |fncs| && fncs[i].symbol == addr
  }

  /** The first function of the table with the address. */
  function First(fncs: seq<Function>, addr: int): (f: Function)
    requires Known(fncs, addr)
    ensures f in fncs && f.symbol == addr
  {
    if fncs[0].symbol == addr then fncs[0] else First(fncs[1..], addr)
  }

  /** fc_search_function: the first one with the address, or a new one. */
  method SearchFunction(addr: int, fncs: seq<Function>) returns (f: Function)
    ensures f.symbol == addr
    ensures Known(fncs, addr) ==> f == First(fncs, addr)
    ensures Known(fncs, addr) ==>
              exists i :: 0 <= i < |fncs| && fncs[i] == f && forall j :: 0 <= j < i ==> fncs[j].symbol != addr
    ensures !Known(fncs, addr) ==> fresh(f) && f.node == null
  {
    var i := 0;
    while i < |fncs|
      invariant 0 <= i <= |fncs| && forall k :: 0 <= k < i ==> fncs[k].symbol != addr
      invariant Known(fncs, addr) ==> Known(fncs[i..], addr) && First(fncs, addr) == First(fncs[i..], addr)
    {
      if fncs[i].symbol == addr {
        assert fncs[i..][0] == fncs[i];
        return fncs[i];
      }
      assert fncs[i..][1..] == fncs[i + 1..];
      i := i + 1;
    }
    f := new Function(addr);
  }

  // ---------------------------------------------------------------- the ends of the arcs

  /** The function of an address: that of the table if there is one. */
  predicate Resolves(f: Function, fncs: seq<Function>, addr: int) {
    f.symbol == addr && (Known(fncs, addr) ==> f == First(fncs, addr)) && (!Known(fncs, addr) ==> f !in fncs)
  }

  /** The functions of the arcs.  A function that is not in the table is an end of one arc only. */
  predicate Resolved(arcs: seq<Arc>, fncs: seq<Function>, from: seq<Function>, to: seq<Function>) {
    && |from| == |to| == |arcs|
    && (forall i :: 0 <= i < |arcs| ==> Resolves(from[i], fncs, arcs[i].from) && Resolves(to[i], fncs, arcs[i].to))
    && (forall i, j :: 0 <= i < |arcs| && 0 <= j < |arcs| && from[i] == to[j] ==> from[i] in fncs)
    && (forall i, j :: 0 <= i < j < |arcs| && from[i] == from[j] ==> from[i] in fncs)
    && (forall i, j :: 0 <= i < j < |arcs| && to[i] == to[j] ==> to[i] in fncs)
  }

  ghost function Ends(from: seq<Function>, to: seq<Function>): set<Function> {
    (set i | 0 <= i < |from| :: from[i]) + (set i | 0 <= i < |to| :: to[i])
  }

  lemma {:induction false} ResolvedMore(arcs: seq<Arc>, fncs: seq<Function>, from: seq<Function>,
      to: seq<Function>, arc: Arc, f: Function, g: Function)
    requires Resolved(arcs, fncs, from, to) && Resolves(f, fncs, arc.from) && Resolves(g, fncs, arc.to)
    requires (f in Ends(from, to) ==> f in fncs) && (g in Ends(from, to) + {f} ==> g in fncs)
    ensures Resolved(arcs + [arc], fncs, from + [f], to + [g])
    ensures Ends(from + [f], to + [g]) == Ends(from, to) + {f, g}
  {
    assert forall i :: 0 <= i < |from| ==> from[i] == (from + [f])[i] && to[i] == (to + [g])[i];
    assert (from + [f])[|from|] == f && (to + [g])[|to|] == g;
  }

  /** The functions of one more arc. */
  method ResolveArc(arc: Arc, fncs: seq<Function>, ghost ends: set<Function>)
    returns (f: Function, g: Function)
    requires forall x :: x in fncs ==> x.node == null
    ensures Resolves(f, fncs, arc.from) && (f in fncs || fresh(f)) && f.node == null && (f in ends ==> f in fncs)
    ensures Resolves(g, fncs, arc.to) && (g in fncs || fresh(g)) && g.node == null && (g in ends + {f} ==> g in fncs)
  {
    f := SearchFunction(arc.from, fncs);
    g := SearchFunction(arc.to, fncs);
  }

  method ResolveArcs(arcs: seq<Arc>, fncs: seq<Function>) returns (from: seq<Function>, to: seq<Function>)
    requires forall f :: f in fncs ==> f.node == null
    ensures Resolved(arcs, fncs, from, to)
    ensures forall f :: f in Ends(from, to) ==> (f in fncs || fresh(f)) && f.node == null
  {
    from, to := [], [];
    var i := 0;
    while i < |arcs|
      invariant 0 <= i <= |arcs| && Resolved(arcs[..i], fncs, from, to)
      invariant forall f :: f in Ends(from, to) ==> (f in fncs || fresh(f)) && f.node == null
    {
      var f, g := ResolveArc(arcs[i], fncs, Ends(from, to));
      ResolvedMore(arcs[..i], fncs, from, to, arcs[i], f, g);
      assert arcs[..i + 1] == arcs[..i] + [arcs[i]];
      from, to := from + [f], to + [g];
      i := i + 1;
    }
    assert arcs[..|arcs|] == arcs;
  }

  // ---------------------------------------------------------------- the nodes

  /** The list holds the node of each function that has one, once, and nothing else. */
  ghost predicate OneNodeEach(fs: set<Function>, nodes: seq<Node>)
    reads fs`node
  {
    && (forall f :: f in fs && f.node != null ==> f.node in nodes && f.node.owner == f)
    && (forall n :: n in nodes ==> n.owner in fs && n.owner.node == n)
    && forall j, k :: 0 <= j < k < |nodes| ==> nodes[j] != nodes[k]
  }

  /** A node for a function that has none. */
  method NodeOf(f: Function, nodes: seq<Node>, ghost fs: set<Function>) returns (r: seq<Node>)
    requires f in fs && OneNodeEach(fs, nodes) && forall n :: n in nodes ==> n.nexts == []
    modifies f`node
    ensures OneNodeEach(fs, r) && f.node != null && (old(f.node) != null ==> f.node == old(f.node))
    ensures r == if old(f.node) == null then nodes + [f.node] else nodes
    ensures forall n :: n in r ==> n.nexts == [] && (n in nodes || fresh(n))
  {
    r := nodes;
    if f.node == null {
      var tmp := new Node(f);
      f.node := tmp;
      r := nodes + [tmp];
    }
  }

  /** The ends of the arcs in the order in which they are looked at: those of the first arc, those of the
      second, and so on. */
  function EndAt(from: seq<Function>, to: seq<Function>, k: nat): Function
    requires k < 2 * |from| && |from| == |to|
  {
    if k % 2 == 0 then from[k / 2] else to[k / 2]
  }

  /** f is one of the first k ends. */
  predicate Seen(from: seq<Function>, to: seq<Function>, k: nat, f: Function)
    requires k <= 2 * |from| && |from| == |to|
  {
    exists m :: 0 <= m < k && EndAt(from, to, m) == f
  }

  /** f is an end before g is. */
  predicate EndsBefore(from: seq<Function>, to: seq<Function>, f: Function, g: Function)
    requires |from| == |to|
  {
    exists m :: 0 <= m < 2 * |from| && EndAt(from, to, m) == f && !Seen(from, to, m + 1, g)
  }

  /** The nodes are those of the first k ends, in the order of their first appearance. */
  predicate InOrder(from: seq<Function>, to: seq<Function>, k: nat, nodes: seq<Node>)
    requires k <= 2 * |from| && |from| == |to|
  {
    && (forall j :: 0 <= j < |nodes| ==> Seen(from, to, k, nodes[j].owner))
    && forall i, j :: 0 <= i < j < |nodes| ==> EndsBefore(from, to, nodes[i].owner, nodes[j].owner)
  }

  lemma {:induction false} SeenMore(from: seq<Function>, to: seq<Function>, k: nat, f: Function)
    requires k < 2 * |from| && |from| == |to|
    ensures Seen(from, to, k + 1, f) <==> Seen(from, to, k, f) || f == EndAt(from, to, k)
  {
  }

  lemma {:induction false} UnseenIsLater(from: seq<Function>, to: seq<Function>, k: nat, f: Function, g: Function)
    requires k <= 2 * |from| && |from| == |to| && Seen(from, to, k, f) && !Seen(from, to, k, g)
    ensures EndsBefore(from, to, f, g)
  {
    var m :| 0 <= m < k && EndAt(from, to, m) == f;
    assert !Seen(from, to, m + 1, g);
  }

  lemma {:induction false} OneMoreEnd(from: seq<Function>, to: seq<Function>, k: nat, nodes: seq<Node>, n: Node)
    requires k < 2 * |from| && |from| == |to| && InOrder(from, to, k, nodes) && n.owner == EndAt(from, to, k)
    ensures InOrder(from, to, k + 1, nodes)
    ensures !Seen(from, to, k, n.owner) ==> InOrder(from, to, k + 1, nodes + [n])
  {
    var more := nodes + [n];
    forall j | 0 <= j < |more| ensures Seen(from, to, k + 1, more[j].owner) {
      SeenMore(from, to, k, more[j].owner);
    }
    if !Seen(from, to, k, n.owner) {
      forall i, j | 0 <= i < j < |more| ensures EndsBefore(from, to, more[i].owner, more[j].owner) {
        if j == |nodes| {
          UnseenIsLater(from, to, k, more[i].owner, n.owner);
        }
      }
    }
  }

  /** The nodes of the first k ends have been made. */
  ghost predicate Made(from: seq<Function>, to: seq<Function>, k: nat, nodes: seq<Node>)
    requires k <= 2 * |from| && |from| == |to|
    reads Ends(from, to)`node
  {
    && OneNodeEach(Ends(from, to), nodes) && InOrder(from, to, k, nodes)
    && forall f :: f in Ends(from, to) ==> (f.node != null <==> Seen(from, to, k, f))
  }

  /** The node of the k-th end is made, if it has none. */
  method NodeOfEnd(from: seq<Function>, to: seq<Function>, f: Function, nodes: seq<Node>, ghost k: nat)
    returns (r: seq<Node>)
    requires k < 2 * |from| && |from| == |to| && f == EndAt(from, to, k) && f in Ends(from, to)
    requires Made(from, to, k, nodes) && forall n :: n in nodes ==> n.nexts == []
    modifies f`node
    ensures Made(from, to, k + 1, r) && forall n :: n in r ==> n.nexts == [] && (n in nodes || fresh(n))
  {
    r := NodeOf(f, nodes, Ends(from, to));
    OneMoreEnd(from, to, k, nodes, f.node);
    forall g | g in Ends(from, to) ensures g.node != null <==> Seen(from, to, k + 1, g) {
      SeenMore(from, to, k, g);
    }
  }

  lemma {:induction false} NodesAreMembers(fs: set<Function>, nodes: seq<Node>)
    requires OneNodeEach(fs, nodes)
    ensures forall f :: f in fs && f.node != null ==> f.node in Members(nodes)
    ensures forall n :: n in Members(nodes) ==> n in nodes
  {
  }

  method CreateNodes(from: seq<Function>, to: seq<Function>) returns (nodes: seq<Node>)
    requires |from| == |to| && forall f :: f in Ends(from, to) ==> f.node == null
    modifies Ends(from, to)`node
    ensures OneNodeEach(Ends(from, to), nodes) && InOrder(from, to, 2 * |from|, nodes)
    ensures forall f :: f in Ends(from, to) ==> f.node != null && f.node in Members(nodes)
    ensures forall n :: n in Members(nodes) ==> fresh(n) && n.nexts == []
  {
    nodes := [];
    var i := 0;
    while i < |from|
      invariant 0 <= i <= |from| && Made(from, to, 2 * i, nodes)
      invariant forall n :: n in nodes ==> fresh(n) && n.nexts == []
    {
      assert from[i] in Ends(from, to) && to[i] in Ends(from, to);
      nodes := NodeOfEnd(from, to, from[i], nodes, 2 * i);
      nodes := NodeOfEnd(from, to, to[i], nodes, 2 * i + 1);
      i := i + 1;
    }
    forall f | f in Ends(from, to) ensures f.node != null {
      AllSeen(from, to, f);
    }
    NodesAreMembers(Ends(from, to), nodes);
  }

  lemma {:induction false} AllSeen(from: seq<Function>, to: seq<Function>, f: Function)
    requires |from| == |to| && f in Ends(from, to)
    ensures Seen(from, to, 2 * |from|, f)
  {
    if i :| 0 <= i < |from| && from[i] == f {
      assert EndAt(from, to, 2 * i) == f;
    } else {
      var i :| 0 <= i < |to| && to[i] == f;
      assert EndAt(from, to, 2 * i + 1) == f;
    }
  }

  // ---------------------------------------------------------------- the links

  /** Arc i goes from node u to node v. */
  ghost predicate Joins(from: seq<Function>, to: seq<Function>, i: nat, u: Node, v: Node)
    requires i < |from| == |to|
    reads Ends(from, to)`node
  {
    from[i].node == u && to[i].node == v
  }

  /** One of the first k arcs goes from node u to node v. */
  ghost predicate Linked(from: seq<Function>, to: seq<Function>, k: nat, u: Node, v: Node)
    requires k <= |from| == |to|
    reads Ends(from, to)`node
  {
    k > 0 && (Linked(from, to, k - 1, u, v) || Joins(from, to, k - 1, u, v))
  }

  lemma {:induction false} LinkedBy(from: seq<Function>, to: seq<Function>, k: nat, u: Node, v: Node)
    requires k <= |from| == |to|
    ensures Linked(from, to, k, u, v) <==> exists i :: 0 <= i < k && Joins(from, to, i, u, v)
  {
    if k > 0 {
      LinkedBy(from, to, k - 1, u, v);
    }
  }

  /** The links between the nodes are those of the first k arcs. */
  ghost predicate LinksAre(from: seq<Function>, to: seq<Function>, k: nat, nodes: set<Node>)
    requires k <= |from| == |to|
    reads Ends(from, to)`node, nodes`nexts
  {
    Closed(nodes) && forall u, v :: u in nodes && v in nodes ==> (v in u.nexts <==> Linked(from, to, k, u, v))
  }

  ghost predicate HaveNodes(from: seq<Function>, to: seq<Function>, nodes: set<Node>)
    reads Ends(from, to)`node
  {
    forall f :: f in Ends(from, to) ==> f.node != null && f.node in nodes
  }

  /** Where the first k arcs from node u go, in their order. */
  ghost function Followers(from: seq<Function>, to: seq<Function>, k: nat, nodes: set<Node>, u: Node): (r: seq<Node>)
    requires k <= |from| == |to| && HaveNodes(from, to, nodes)
    reads Ends(from, to)`node
  {
    if k == 0 then [] else
    assert from[k - 1] in Ends(from, to) && to[k - 1] in Ends(from, to);
    Followers(from, to, k - 1, nodes, u) + if from[k - 1].node == u then [to[k - 1].node] else []
  }

  lemma {:induction false} FollowersAreLinked(from: seq<Function>, to: seq<Function>, k: nat, nodes: set<Node>,
      u: Node, v: Node)
    requires k <= |from| == |to| && HaveNodes(from, to, nodes)
    ensures v in Followers(from, to, k, nodes, u) <==> Linked(from, to, k, u, v)
    ensures v in Followers(from, to, k, nodes, u) ==> v in nodes
  {
    if k > 0 {
      FollowersAreLinked(from, to, k - 1, nodes, u, v);
      assert from[k - 1] in Ends(from, to) && to[k - 1] in Ends(from, to);
    }
  }

  /** The successors of each node are those of the first k arcs, in their order. */
  ghost predicate NextsAre(from: seq<Function>, to: seq<Function>, k: nat, nodes: set<Node>)
    requires k <= |from| == |to| && HaveNodes(from, to, nodes)
    reads Ends(from, to)`node, nodes`nexts
  {
    forall u :: u in nodes ==> u.nexts == Followers(from, to, k, nodes, u)
  }

  lemma {:induction false} NextsAreLinks(from: seq<Function>, to: seq<Function>, k: nat, nodes: set<Node>)
    requires k <= |from| == |to| && HaveNodes(from, to, nodes) && NextsAre(from, to, k, nodes)
    ensures LinksAre(from, to, k, nodes)
  {
    forall u, v | u in nodes
      ensures v in u.nexts ==> v in nodes
      ensures v in nodes ==> (v in u.nexts <==> Linked(from, to, k, u, v))
    {
      FollowersAreLinked(from, to, k, nodes, u, v);
    }
  }

  /** fc_add_child. */
  method AddChild(u: Node, v: Node)
    modifies u`nexts
    ensures u.nexts == old(u.nexts) + [v]
  {
    u.nexts := u.nexts + [v];
  }

  method LinkNodes(from: seq<Function>, to: seq<Function>, ghost nodes: set<Node>)
    requires |from| == |to| && HaveNodes(from, to, nodes)
    requires forall n :: n in nodes ==> n.nexts == []
    modifies nodes`nexts
    ensures NextsAre(from, to, |from|, nodes) && LinksAre(from, to, |from|, nodes)
  {
    var i := 0;
    while i < |from|
      invariant 0 <= i <= |from| && NextsAre(from, to, i, nodes)
    {
      assert from[i] in Ends(from, to) && to[i] in Ends(from, to);
      AddChild(from[i].node, to[i].node);
      i := i + 1;
    }
    NextsAreLinks(from, to, |from|, nodes);
  }

  // ---------------------------------------------------------------- cycles of nodes and of addresses

  predicate HaveCallers(arcs: seq<Arc>) {
    forall i :: 0 <= i < |arcs| ==> arcs[i].from != NULL
  }

  /** The graph that the last phases of fc_graph_create build from the arcs. */
  ghost predicate Built(arcs: seq<Arc>, fncs: seq<Function>, from: seq<Function>, to: seq<Function>, nodes: seq<Node>)
    reads Ends(from, to)`node, nodes`nexts, Members(nodes)`nexts
  {
    && HaveCallers(arcs) && Resolved(arcs, fncs, from, to) && OneNodeEach(Ends(from, to), nodes)
    && HaveNodes(from, to, Members(nodes)) && InOrder(from, to, 2 * |arcs|, nodes)
    && NextsAre(from, to, |arcs|, Members(nodes)) && LinksAre(from, to, |arcs|, Members(nodes))
  }

  method BuildGraph(arcs: seq<Arc>, fncs: seq<Function>)
    returns (nodes: seq<Node>, ghost from: seq<Function>, ghost to: seq<Function>)
    requires HaveCallers(arcs) && forall f :: f in fncs ==> f.node == null
    modifies fncs`node
    ensures Built(arcs, fncs, from, to, nodes) && forall n :: n in Members(nodes) ==> fresh(n)
  {
    var ffrom, fto := ResolveArcs(arcs, fncs);
    from, to := ffrom, fto;
    nodes := JoinFunctions(ffrom, fto);
  }

  method JoinFunctions(from: seq<Function>, to: seq<Function>) returns (nodes: seq<Node>)
    requires |from| == |to| && forall f :: f in Ends(from, to) ==> f.node == null
    modifies Ends(from, to)`node
    ensures OneNodeEach(Ends(from, to), nodes) && forall n :: n in Members(nodes) ==> fresh(n)
    ensures HaveNodes(from, to, Members(nodes)) && InOrder(from, to, 2 * |from|, nodes)
    ensures NextsAre(from, to, |from|, Members(nodes)) && LinksAre(from, to, |from|, Members(nodes))
  {
    nodes := CreateNodes(from, to);
    LinkNodes(from, to, Members(nodes));
  }

  /** The element after place k, or the first one after the last. */
  function After<T>(s: seq<T>, k: nat): T
    requires k < |s|
  {
    if k == |s| - 1 then s[0] else s[k + 1]
  }

  predicate HasArc(arcs: seq<Arc>, x: int, y: int) {
    exists i :: 0 <= i < |arcs| && arcs[i].from == x && arcs[i].to == y
  }

  /** A cycle of arcs through functions that the table knows. */
  predicate AddressCycle(arcs: seq<Arc>, fncs: seq<Function>, c: seq<int>) {
    c != [] && forall k :: 0 <= k < |c| ==> c[k] != NULL && Known(fncs, c[k]) && HasArc(arcs, c[k], After(c, k))
  }

  ghost predicate OnAddressCycle(arcs: seq<Arc>, fncs: seq<Function>, x: int) {
    exists c: seq<int> :: AddressCycle(arcs, fncs, c) && c[0] == x
  }

  lemma {:induction false} LinkComesFrom(arcs: seq<Arc>, fncs: seq<Function>, from: seq<Function>,
      to: seq<Function>, nodes: seq<Node>, u: Node, v: Node) returns (i: nat)
    requires Built(arcs, fncs, from, to, nodes) && u in Members(nodes) && v in u.nexts
    ensures i < |arcs| && from[i].node == u && to[i].node == v && from[i] in Ends(from, to) && to[i] in Ends(from, to)
  {
    LinkedBy(from, to, |arcs|, u, v);
    i :| 0 <= i < |arcs| && Joins(from, to, i, u, v);
  }

  /** A node with links in and out is that of a known function: an unknown address gets a new node for
      each arc that it ends. */
  lemma {:induction false} ThroughMeansKnown(arcs: seq<Arc>, fncs: seq<Function>, from: seq<Function>,
      to: seq<Function>, nodes: seq<Node>, t: Node, u: Node, v: Node)
    requires Built(arcs, fncs, from, to, nodes) && t in Members(nodes) && u in t.nexts && v in u.nexts
    ensures u.owner in Ends(from, to) && u.owner in fncs && u.owner.node == u
  {
    var i := LinkComesFrom(arcs, fncs, from, to, nodes, t, u);
    var j := LinkComesFrom(arcs, fncs, from, to, nodes, u, v);
    assert to[i] == from[j];
  }

  lemma {:induction false} LinkIsArc(arcs: seq<Arc>, fncs: seq<Function>, from: seq<Function>,
      to: seq<Function>, nodes: seq<Node>, u: Node, v: Node)
    requires Built(arcs, fncs, from, to, nodes) && u in Members(nodes) && v in u.nexts
    ensures v in Members(nodes)
    ensures HasArc(arcs, u.owner.symbol, v.owner.symbol)
  {
    var i := LinkComesFrom(arcs, fncs, from, to, nodes, u, v);
  }

  lemma {:induction false} CycleLinks(p: seq<Node>, k: nat)
    requires Cycle(p) && k < |p|
    ensures After(p, k) in p[k].nexts
    ensures exists j :: 0 <= j < |p| && p[k] in p[j].nexts
  {
    if k > 0 {
      assert p[k - 1 + 1] in p[k - 1].nexts;
    }
  }

  /** A cycle of nodes is a cycle of arcs through known functions. */
  lemma {:induction false} NodeCycleIsAddressCycle(arcs: seq<Arc>, fncs: seq<Function>, from: seq<Function>,
      to: seq<Function>, nodes: seq<Node>, p: seq<Node>)
    requires Built(arcs, fncs, from, to, nodes) && InGraph(Members(nodes), p) && Cycle(p)
    ensures OnAddressCycle(arcs, fncs, p[0].owner.symbol) && p[0].owner in fncs
  {
    var c := seq(|p|, k requires 0 <= k < |p| => p[k].owner.symbol);
    forall k | 0 <= k < |p|
      ensures p[k].owner in fncs && c[k] != NULL && Known(fncs, c[k]) && HasArc(arcs, c[k], After(c, k))
    {
      CycleLinks(p, k);
      var j :| 0 <= j < |p| && p[k] in p[j].nexts;
      ThroughMeansKnown(arcs, fncs, from, to, nodes, p[j], p[k], After(p, k));
      LinkIsArc(arcs, fncs, from, to, nodes, p[k], After(p, k));
    }
    assert AddressCycle(arcs, fncs, c);
  }

  /** Each arc between known functions is a link between their nodes. */
  lemma {:induction false} ArcIsLink(arcs: seq<Arc>, fncs: seq<Function>, from: seq<Function>,
      to: seq<Function>, nodes: seq<Node>, x: int, y: int)
    requires Built(arcs, fncs, from, to, nodes) && HasArc(arcs, x, y) && Known(fncs, x) && Known(fncs, y)
    ensures First(fncs, x) in Ends(from, to) && First(fncs, y) in Ends(from, to)
    ensures First(fncs, x).node != null && First(fncs, y).node != null
    ensures First(fncs, x).node in Members(nodes) && First(fncs, y).node in First(fncs, x).node.nexts
  {
    var i :| 0 <= i < |arcs| && arcs[i].from == x && arcs[i].to == y;
    assert Resolves(from[i], fncs, x) && Resolves(to[i], fncs, y);
    assert from[i] in Ends(from, to) && to[i] in Ends(from, to);
    assert Joins(from, to, i, from[i].node, to[i].node);
    LinkedBy(from, to, |arcs|, from[i].node, to[i].node);
  }

  lemma {:induction false} AddressCycleIsNodeCycle(arcs: seq<Arc>, fncs: seq<Function>, from: seq<Function>,
      to: seq<Function>, nodes: seq<Node>, c: seq<int>)
    requires Built(arcs, fncs, from, to, nodes) && AddressCycle(arcs, fncs, c)
    ensures First(fncs, c[0]).node != null && OnCycle(Members(nodes), First(fncs, c[0]).node)
  {
    forall k | 0 <= k < |c| ensures First(fncs, c[k]).node != null {
      ArcIsLink(arcs, fncs, from, to, nodes, c[k], After(c, k));
    }
    var p := NodesFrom(seq(|c|, k requires 0 <= k < |c| && Known(fncs, c[k]) => First(fncs, c[k])));
    forall k | 0 <= k < |c| ensures p[k] in Members(nodes) && After(p, k) in p[k].nexts {
      ArcBetween(arcs, fncs, from, to, nodes, c, p, k);
    }
    CycleFromLinks(p);
    assert InGraph(Members(nodes), p) && p[0] == First(fncs, c[0]).node;
  }

  lemma {:induction false} ArcBetween(arcs: seq<Arc>, fncs: seq<Function>, from: seq<Function>,
      to: seq<Function>, nodes: seq<Node>, c: seq<int>, p: seq<Node>, k: nat)
    requires Built(arcs, fncs, from, to, nodes) && AddressCycle(arcs, fncs, c) && k < |c|
    requires |p| == |c| && forall m :: 0 <= m < |c| ==> p[m] == First(fncs, c[m]).node
    ensures p[k] in Members(nodes) && After(p, k) in p[k].nexts
  {
    assert p[k] == First(fncs, c[k]).node && After(p, k) == First(fncs, After(c, k)).node;
    ArcIsLink(arcs, fncs, from, to, nodes, c[k], After(c, k));
  }

  ghost function NodesFrom(fs: seq<Function>): (p: seq<Node>)
    requires forall k :: 0 <= k < |fs| ==> fs[k].node != null
    reads fs`node
    ensures |p| == |fs| && forall k :: 0 <= k < |fs| ==> p[k] == fs[k].node
  {
    if fs == [] then [] else [fs[0].node] + NodesFrom(fs[1..])
  }

  lemma {:induction false} CycleFromLinks(p: seq<Node>)
    requires p != [] && forall k :: 0 <= k < |p| ==> After(p, k) in p[k].nexts
    ensures Cycle(p)
  {
    forall i | 0 <= i < |p| - 1 ensures p[i + 1] in p[i].nexts {
      assert After(p, i) == p[i + 1];
    }
    assert After(p, |p| - 1) == p[0];
  }

  /** A node is on a cycle of nodes exactly when its function is in the table and its address is on a
      cycle of arcs through functions of the table. */
  lemma {:induction false} CyclesAgree(arcs: seq<Arc>, fncs: seq<Function>, from: seq<Function>,
      to: seq<Function>, nodes: seq<Node>, n: Node)
    requires Built(arcs, fncs, from, to, nodes) && n in Members(nodes)
    ensures OnCycle(Members(nodes), n) <==> n.owner in fncs && OnAddressCycle(arcs, fncs, n.owner.symbol)
    ensures n.owner in fncs ==> n.owner == First(fncs, n.owner.symbol)
  {
    if OnCycle(Members(nodes), n) {
      var p: seq<Node> :| InGraph(Members(nodes), p) && Cycle(p) && p[0] == n;
      NodeCycleIsAddressCycle(arcs, fncs, from, to, nodes, p);
    }
    assert n.owner in Ends(from, to);
    assert n.owner in fncs ==> Known(fncs, n.owner.symbol);
    if n.owner in fncs && OnAddressCycle(arcs, fncs, n.owner.symbol) {
      var c: seq<int> :| AddressCycle(arcs, fncs, c) && c[0] == n.owner.symbol;
      AddressCycleIsNodeCycle(arcs, fncs, from, to, nodes, c);
    }
  }

  /** The addresses on a cycle of arcs through functions of the table. */
  ghost function CyclicAddresses(arcs: seq<Arc>, fncs: seq<Function>): set<int> {
    set i | 0 <= i < |fncs| && OnAddressCycle(arcs, fncs, fncs[i].symbol) :: fncs[i].symbol
  }

  /** The addresses of the first k nodes that are on a cycle. */
  ghost function CyclicOwners(nodes: seq<Node>, k: nat): set<int>
    requires k <= |nodes|
    reads Members(nodes)`nexts
  {
    if k == 0 then {} else
    CyclicOwners(nodes, k - 1) + if OnCycle(Members(nodes), nodes[k - 1]) then {nodes[k - 1].owner.symbol} else {}
  }

  lemma {:induction false} NewOwner(arcs: seq<Arc>, fncs: seq<Function>, from: seq<Function>,
      to: seq<Function>, nodes: seq<Node>, i: nat, k: nat)
    requires Built(arcs, fncs, from, to, nodes) && i < k < |nodes|
    requires OnCycle(Members(nodes), nodes[i]) && OnCycle(Members(nodes), nodes[k])
    ensures nodes[i].owner.symbol != nodes[k].owner.symbol
  {
    CyclesAgree(arcs, fncs, from, to, nodes, nodes[i]);
    CyclesAgree(arcs, fncs, from, to, nodes, nodes[k]);
    assert nodes[i] != nodes[k] && nodes[i].owner.node == nodes[i] && nodes[k].owner.node == nodes[k];
  }

  lemma {:induction false} OwnerIsIn(nodes: seq<Node>, k: nat, x: int)
    requires k <= |nodes|
    ensures x in CyclicOwners(nodes, k) <==>
      exists i :: 0 <= i < k && OnCycle(Members(nodes), nodes[i]) && nodes[i].owner.symbol == x
  {
    if k > 0 {
      OwnerIsIn(nodes, k - 1, x);
    }
  }

  lemma {:induction false} OwnerIsNew(arcs: seq<Arc>, fncs: seq<Function>, from: seq<Function>,
      to: seq<Function>, nodes: seq<Node>, k: nat)
    requires Built(arcs, fncs, from, to, nodes) && k < |nodes| && OnCycle(Members(nodes), nodes[k])
    ensures nodes[k].owner.symbol !in CyclicOwners(nodes, k)
  {
    forall i | 0 <= i < k && OnCycle(Members(nodes), nodes[i])
      ensures nodes[i].owner.symbol != nodes[k].owner.symbol
    {
      NewOwner(arcs, fncs, from, to, nodes, i, k);
    }
    OwnerIsIn(nodes, k, nodes[k].owner.symbol);
  }

  /** No two nodes on cycles have the same address. */
  ghost predicate NewOwners(nodes: seq<Node>)
    reads Members(nodes)`nexts
  {
    forall k :: 0 <= k < |nodes| && OnCycle(Members(nodes), nodes[k]) ==>
      nodes[k].owner.symbol !in CyclicOwners(nodes, k)
  }

  lemma {:induction false} OwnersAreNew(arcs: seq<Arc>, fncs: seq<Function>, from: seq<Function>,
      to: seq<Function>, nodes: seq<Node>)
    requires Built(arcs, fncs, from, to, nodes)
    ensures NewOwners(nodes)
  {
    forall k | 0 <= k < |nodes| && OnCycle(Members(nodes), nodes[k])
      ensures nodes[k].owner.symbol !in CyclicOwners(nodes, k)
    {
      OwnerIsNew(arcs, fncs, from, to, nodes, k);
    }
  }

  lemma {:induction false} OwnersAreCounted(nodes: seq<Node>, k: nat)
    requires NewOwners(nodes) && k <= |nodes|
    ensures |CyclicOwners(nodes, k)| == CyclicNodes(nodes, k)
  {
    if k > 0 {
      OwnersAreCounted(nodes, k - 1);
    }
  }

  lemma {:induction false} OwnersAreAddresses(arcs: seq<Arc>, fncs: seq<Function>, from: seq<Function>,
      to: seq<Function>, nodes: seq<Node>)
    requires Built(arcs, fncs, from, to, nodes)
    ensures CyclicOwners(nodes, |nodes|) == CyclicAddresses(arcs, fncs)
  {
    forall x | x in CyclicOwners(nodes, |nodes|) ensures x in CyclicAddresses(arcs, fncs) {
      OwnerIsIn(nodes, |nodes|, x);
      var i :| 0 <= i < |nodes| && OnCycle(Members(nodes), nodes[i]) && nodes[i].owner.symbol == x;
      CyclesAgree(arcs, fncs, from, to, nodes, nodes[i]);
      var j :| 0 <= j < |fncs| && fncs[j] == nodes[i].owner;
    }
    forall x | x in CyclicAddresses(arcs, fncs) ensures x in CyclicOwners(nodes, |nodes|) {
      var c: seq<int> :| AddressCycle(arcs, fncs, c) && c[0] == x;
      AddressCycleIsNodeCycle(arcs, fncs, from, to, nodes, c);
      ArcIsLink(arcs, fncs, from, to, nodes, c[0], After(c, 0));
      var n := First(fncs, x).node;
      var i :| 0 <= i < |nodes| && nodes[i] == n;
      assert nodes[i].owner == First(fncs, x);
      OwnerIsIn(nodes, |nodes|, x);
    }
  }

  // ---------------------------------------------------------------- the whole analysis

  /** An entry of the compacted table has the pair of one of the table, with a caller. */
  lemma {:induction false} KeptIsArc(s: seq<Arc>, u: seq<Arc>, dec: nat, d: nat)
    requires dec <= |s| && Compacted(u, s, |s|, dec) && d < dec
    ensures u[d].from != NULL && HasArc(s, u[d].from, u[d].to)
  {
    SurvivorsAre(s, |s|);
    var i := Survivors(s, |s|)[d];
    assert Survives(s, i) && s[i].from == u[d].from && s[i].to == u[d].to;
  }

  lemma {:induction false} ArcIsKept(s: seq<Arc>, u: seq<Arc>, dec: nat, i: nat)
    requires dec <= |s| && Compacted(u, s, |s|, dec) && i < |s| && s[i].from != NULL
    ensures HasArc(u[..dec], s[i].from, s[i].to)
  {
    var r := Survivors(s, |s|);
    OneSurvivor(s, i);
    var d :| 0 <= d < |r| && SamePair(s[r[d]], s[i]);
    assert SamePair(u[d], s[r[d]]) && u[..dec][d] == u[d];
  }

  lemma {:induction false} SameArcs(s: seq<Arc>, u: seq<Arc>, dec: nat, x: int, y: int)
    requires dec <= |s| && Compacted(u, s, |s|, dec)
    ensures HasArc(u[..dec], x, y) <==> x != NULL && HasArc(s, x, y)
    ensures HaveCallers(u[..dec])
  {
    forall d | 0 <= d < dec ensures u[d].from != NULL && HasArc(s, u[d].from, u[d].to) {
      KeptIsArc(s, u, dec, d);
    }
    if x != NULL && HasArc(s, x, y) {
      var i :| 0 <= i < |s| && s[i].from == x && s[i].to == y;
      ArcIsKept(s, u, dec, i);
    }
  }

  lemma {:induction false} SameCycles(s: seq<Arc>, u: seq<Arc>, dec: nat, fncs: seq<Function>, x: int)
    requires dec <= |s| && Compacted(u, s, |s|, dec)
    ensures OnAddressCycle(u[..dec], fncs, x) <==> OnAddressCycle(s, fncs, x)
  {
    forall c: seq<int> ensures AddressCycle(u[..dec], fncs, c) <==> AddressCycle(s, fncs, c) {
      forall k | 0 <= k < |c|
        ensures HasArc(u[..dec], c[k], After(c, k)) <==> c[k] != NULL && HasArc(s, c[k], After(c, k))
      {
        SameArcs(s, u, dec, c[k], After(c, k));
      }
    }
  }

  lemma {:induction false} SameAddresses(s: seq<Arc>, u: seq<Arc>, dec: nat, fncs: seq<Function>)
    requires dec <= |s| && Compacted(u, s, |s|, dec)
    ensures CyclicAddresses(u[..dec], fncs) == CyclicAddresses(s, fncs) && HaveCallers(u[..dec])
  {
    SameArcs(s, u, dec, 0, 0);
    forall x ensures OnAddressCycle(u[..dec], fncs, x) <==> OnAddressCycle(s, fncs, x) {
      SameCycles(s, u, dec, fncs, x);
    }
  }

  // ---------------------------------------------------------------- cycles through unknown addresses

  /** A cycle of arcs, whether or not the function table knows its addresses. */
  predicate ArcCycle(arcs: seq<Arc>, c: seq<int>) {
    c != [] && forall k :: 0 <= k < |c| ==> c[k] != NULL && HasArc(arcs, c[k], After(c, k))
  }

  ghost predicate OnArcCycle(arcs: seq<Arc>, x: int) {
    exists c: seq<int> :: ArcCycle(arcs, c) && c[0] == x
  }

  /** All addresses on a cycle of arcs. */
  ghost function AllCyclicAddresses(arcs: seq<Arc>): set<int> {
    set i | 0 <= i < |arcs| && OnArcCycle(arcs, arcs[i].from) :: arcs[i].from
  }

  /** A cycle may begin with any of its addresses. */
  lemma {:induction false} Rotated(arcs: seq<Arc>, c: seq<int>, k: nat)
    requires ArcCycle(arcs, c) && k < |c|
    ensures c[k] in AllCyclicAddresses(arcs)
  {
    var d := c[k..] + c[..k];
    forall j | 0 <= j < |d| ensures d[j] != NULL && HasArc(arcs, d[j], After(d, j)) {
      var m := if k + j < |c| then k + j else k + j - |c|;
      assert d[j] == c[m] && After(d, j) == After(c, m);
      assert c[m] != NULL && HasArc(arcs, c[m], After(c, m));
    }
    assert ArcCycle(arcs, d) && d[0] == c[k];
    assert HasArc(arcs, d[0], After(d, 0));
    var i :| 0 <= i < |arcs| && arcs[i].from == d[0];
  }

  lemma {:induction false} CyclicAreOnCycles(arcs: seq<Arc>, fncs: seq<Function>, x: int)
    requires x in CyclicAddresses(arcs, fncs)
    ensures x in AllCyclicAddresses(arcs) && Known(fncs, x)
  {
    var c: seq<int> :| AddressCycle(arcs, fncs, c) && c[0] == x;
    assert Known(fncs, c[0]);
    Rotated(arcs, c, 0);
  }

  lemma {:induction false} KnownAreCounted(arcs: seq<Arc>, fncs: seq<Function>, x: int)
    requires x in AllCyclicAddresses(arcs) && forall y :: y in AllCyclicAddresses(arcs) ==> Known(fncs, y)
    ensures x in CyclicAddresses(arcs, fncs)
  {
    var c: seq<int> :| ArcCycle(arcs, c) && c[0] == x;
    forall k | 0 <= k < |c| ensures Known(fncs, c[k]) {
      Rotated(arcs, c, k);
    }
    assert AddressCycle(arcs, fncs, c);
    var i :| 0 <= i < |fncs| && fncs[i].symbol == x;
  }

  /** Every address on a cycle of arcs is counted if and only if the function table knows all of them. */
  lemma {:induction false} AllCyclesCounted(arcs: seq<Arc>, fncs: seq<Function>)
    ensures |CyclicAddresses(arcs, fncs)| <= |AllCyclicAddresses(arcs)|
    ensures |CyclicAddresses(arcs, fncs)| == |AllCyclicAddresses(arcs)|
      <==> forall x :: x in AllCyclicAddresses(arcs) ==> Known(fncs, x)
  {
    var some, all := CyclicAddresses(arcs, fncs), AllCyclicAddresses(arcs);
    forall x | x in some ensures x in all && Known(fncs, x) {
      CyclicAreOnCycles(arcs, fncs, x);
    }
    PartOf(some, all);
    if forall x :: x in all ==> Known(fncs, x) {
      forall x | x in all ensures x in some {
        KnownAreCounted(arcs, fncs, x);
      }
      assert some == all;
    }
  }

  lemma {:induction false} PartOf<T>(s: set<T>, t: set<T>)
    requires s <= t
    ensures |s| <= |t| && (|s| == |t| <==> s == t)
  {
    assert t == s + (t - s) && |t| == |s| + |t - s|;
    assert |t - s| == 0 <==> t - s == {};
  }

  lemma {:induction false} CountsAgree(arcs: seq<Arc>, fncs: seq<Function>, from: seq<Function>,
      to: seq<Function>, nodes: seq<Node>)
    requires Built(arcs, fncs, from, to, nodes)
    ensures CyclicNodes(nodes, |nodes|) == |CyclicAddresses(arcs, fncs)|
  {
    OwnersAreNew(arcs, fncs, from, to, nodes);
    OwnersAreCounted(nodes, |nodes|);
    OwnersAreAddresses(arcs, fncs, from, to, nodes);
  }

  /** fc_graph_create, then fc_compute_cycles: the reports are those on the graph of the compacted arc table,
      and their number is the number of addresses on a cycle of the arcs through functions of the function
      table. */
  method CountCycles(a: array<Arc>, fncs: seq<Function>)
    returns (count: nat, dec: nat, nodes: seq<Node>, reports: seq<Report>, ghost from: seq<Function>,
      ghost to: seq<Function>)
    requires forall f :: f in fncs ==> f.node == null
    modifies a, fncs`node
    ensures count == |CyclicAddresses(old(a[..]), fncs)| <= |AllCyclicAddresses(old(a[..]))|
    ensures count == |AllCyclicAddresses(old(a[..]))| <==>
      forall x :: x in AllCyclicAddresses(old(a[..])) ==> Known(fncs, x)
    ensures dec <= a.Length && Compacted(a[..], old(a[..]), a.Length, dec)
    ensures Built(a[..dec], fncs, from, to, nodes) && Reports(nodes, reports, |nodes|) && |reports| == count
  {
    ghost var s := a[..];
    AllCyclesCounted(s, fncs);
    dec := RemoveDuplicates(a);
    SameAddresses(s, a[..], dec, fncs);
    var arcs := a[..dec];
    assert arcs == a[..][..dec];
    nodes, from, to := BuildGraph(arcs, fncs);
    CountsAgree(arcs, fncs, from, to, nodes);
    assert Closed(Members(nodes));
    count, reports := ComputeCycles(nodes);
  }

  /** A cycle through an address that is not in the function table is not found: 1 calls 2 and 2 calls
      1, but only 1 is known. */
  lemma {:induction false} UnknownHidesCycle(fncs: seq<Function>)
    requires Known(fncs, 1) && !Known(fncs, 2)
    ensures var arcs := [Arc(1, 2, 1), Arc(2, 1, 1)];
      HasArc(arcs, 1, 2) && HasArc(arcs, 2, 1) && CyclicAddresses(arcs, fncs) == {}
  {
    var arcs := [Arc(1, 2, 1), Arc(2, 1, 1)];
    assert arcs[0].from == 1 && arcs[1].from == 2;
    forall c: seq<int> ensures !AddressCycle(arcs, fncs, c) {
      if c != [] && HasArc(arcs, c[0], After(c, 0)) && Known(fncs, c[0]) {
        assert c[if |c| == 1 then 0 else 1] == 2;
      }
    }
  }
}
