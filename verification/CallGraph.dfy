/** Cycle detection on the call graph (src/fcdump/fc_graph.c:253-377): a depth-first search that tags
    the nodes it has visited, on any graph of registered nodes. */
module CallGraph {

  /** FC_Function: its address, and its node if it has one. */
  class Function {
    const symbol: int
    var node: Node?

    constructor (symbol: int)
      ensures this.symbol == symbol && node == null
    {
      this.symbol, node := symbol, null;
    }
  }

  /** FC_Node: its function, its successors and the tag of the search. */
  class Node {
    const owner: Function
    var nexts: seq<Node>
    var tag: int

    constructor (owner: Function)
      ensures this.owner == owner && nexts == [] && tag == 0
    {
      this.owner, nexts, tag := owner, [], 0;
    }
  }

  /** A path of at least one node: each node calls the one that follows it. */
  ghost predicate Path(p: seq<Node>)
    reads p`nexts
  {
    p != [] && forall i :: 0 <= i < |p| - 1 ==> p[i + 1] in p[i].nexts
  }

  /** A path that leads back to where it starts. */
  ghost predicate Cycle(p: seq<Node>)
    reads p`nexts
  {
    Path(p) && p[0] in p[|p| - 1].nexts
  }

  ghost predicate Simple(p: seq<Node>) {
    forall i, j :: 0 <= i < j < |p| ==> p[i] != p[j]
  }

  /** Every successor of a registered node is registered. */
  ghost predicate Closed(nodes: set<Node>)
    reads nodes`nexts
  {
    forall n :: n in nodes ==> forall m :: m in n.nexts ==> m in nodes
  }

  ghost predicate OnCycle(nodes: set<Node>, n: Node)
    reads nodes`nexts
  {
    exists p: seq<Node> :: InGraph(nodes, p) && Cycle(p) && p[0] == n
  }

  ghost predicate InGraph(nodes: set<Node>, older p: seq<Node>) {
    forall i :: 0 <= i < |p| ==> p[i] in nodes
  }

  ghost function Untagged(nodes: set<Node>): set<Node>
    reads nodes
  {
    set n | n in nodes && n.tag <= 0
  }

  /** The tagged nodes of `done` have only tagged successors, none of which is init. */
  ghost predicate Explored(nodes: set<Node>, done: set<Node>, init: Node)
    reads nodes
  {
    forall n, m :: n in done && n in nodes && n.tag > 0 && m in n.nexts ==> m != init && m in nodes && m.tag > 0
  }

  /** A path, perhaps empty, of distinct nodes that were untagged, from node to a caller of init. */
  ghost predicate Leads(nodes: set<Node>, free: set<Node>, node: Node, init: Node, path: seq<Node>, last: Node?)
    reads nodes`nexts
  {
    && InGraph(nodes, path) && Simple(path) && (forall i :: 0 <= i < |path| ==> path[i] in free)
    && (if path == [] then node == init && last == null
        else path[0] == node && Path(path) && last == path[|path| - 1] && init in path[|path| - 1].nexts)
  }

  lemma {:induction false} LeadsFrom(nodes: set<Node>, free: set<Node>, node: Node, next: Node, init: Node,
      path: seq<Node>, last: Node?)
    requires node in nodes && node in free && next in node.nexts && Leads(nodes, free - {node}, next, init, path, last)
    ensures Leads(nodes, free, node, init, [node] + path, if last == null then node else last)
  {
    var p := [node] + path;
    forall i | 0 <= i < |p| - 1 ensures p[i + 1] in p[i].nexts {
      if i > 0 {
        assert path[i] in path[i - 1].nexts;
      }
    }
  }

  // ---------------------------------------------------------------- which cycle is found

  /** A path from node, off the nodes to avoid, leads to a caller of init. */
  ghost predicate WayBack(nodes: set<Node>, avoid: set<Node>, node: Node, init: Node, older p: seq<Node>)
    reads nodes`nexts
  {
    && InGraph(nodes, p) && Path(p) && p[0] == node && init in p[|p| - 1].nexts
    && forall i :: 0 <= i < |p| ==> p[i] !in avoid
  }

  ghost predicate LeadsBack(nodes: set<Node>, avoid: set<Node>, node: Node, init: Node)
    reads nodes`nexts
  {
    exists p: seq<Node> :: WayBack(nodes, avoid, node, init, p)
  }

  /** None of the first k successors of the node is init or leads back to it. */
  ghost predicate NoWayBefore(nodes: set<Node>, avoid: set<Node>, node: Node, k: nat, init: Node)
    requires node in nodes && k <= |node.nexts|
    reads nodes`nexts
  {
    forall j :: 0 <= j < k ==> node.nexts[j] != init && !LeadsBack(nodes, avoid, node.nexts[j], init)
  }

  /** `next` is the first successor of the node that is init or leads back to it. */
  ghost predicate FirstWay(nodes: set<Node>, avoid: set<Node>, node: Node, next: Node, init: Node)
    reads nodes`nexts
  {
    node in nodes &&
    exists c :: 0 <= c < |node.nexts| && node.nexts[c] == next && NoWayBefore(nodes, avoid, node, c, init)
  }

  /** From each node the path goes to the first successor from which init can be reached without coming back to
      the path so far, nor to the nodes of `stack` before it. */
  ghost predicate Leftmost(nodes: set<Node>, stack: set<Node>, init: Node, path: seq<Node>)
    reads nodes`nexts
    decreases |path|
  {
    path != [] ==>
      && FirstWay(nodes, stack + {path[0]}, path[0], if |path| > 1 then path[1] else init, init)
      && Leftmost(nodes, stack + {path[0]}, init, path[1..])
  }

  /** Nothing that has been explored leads back, except through the nodes that are being searched from. */
  lemma {:induction false} ExploredHasNoWay(nodes: set<Node>, done: set<Node>, avoid: set<Node>, node: Node,
      init: Node, p: seq<Node>, k: nat)
    requires Explored(nodes, done, init) && nodes <= done + avoid && node.tag > 0
    requires InGraph(nodes, p) && Path(p) && p[0] == node && (forall i :: 0 <= i < |p| ==> p[i] !in avoid) && k < |p|
    ensures p[k] in done && p[k].tag > 0 && init !in p[k].nexts
  {
    if k > 0 {
      ExploredHasNoWay(nodes, done, avoid, node, init, p, k - 1);
      assert p[k - 1 + 1] in p[k - 1].nexts;
    }
    var n := p[k];
    assert n in nodes && n !in avoid && n in done && n.tag > 0;
    forall m | m in n.nexts ensures m != init {
      assert m in nodes;
    }
  }

  lemma {:induction false} DeadEnd(nodes: set<Node>, done: set<Node>, avoid: set<Node>, node: Node, init: Node)
    requires Explored(nodes, done, init) && nodes <= done + avoid && node in nodes && node.tag > 0
    ensures !LeadsBack(nodes, avoid, node, init)
  {
    forall p: seq<Node> | WayBack(nodes, avoid, node, init, p) ensures false {
      ExploredHasNoWay(nodes, done, avoid, node, init, p, |p| - 1);
    }
  }

  lemma {:induction false} DeadEnds(nodes: set<Node>, done: set<Node>, avoid: set<Node>, node: Node, k: nat, init: Node)
    requires Closed(nodes) && Explored(nodes, done, init) && nodes <= done + avoid && node in nodes
    requires k <= |node.nexts| && forall j :: 0 <= j < k ==> node.nexts[j] != init && node.nexts[j] !in Untagged(nodes)
    ensures NoWayBefore(nodes, avoid, node, k, init)
  {
    forall j | 0 <= j < k ensures !LeadsBack(nodes, avoid, node.nexts[j], init) {
      DeadEnd(nodes, done, avoid, node.nexts[j], init);
    }
  }

  /** A way back and its first step. */
  lemma {:induction false} RestLeadsBack(nodes: set<Node>, avoid: set<Node>, init: Node, p: seq<Node>)
    requires |p| > 1 && WayBack(nodes, avoid, p[0], init, p) && Simple(p)
    ensures WayBack(nodes, avoid + {p[0]}, p[1], init, p[1..]) && Simple(p[1..])
  {
    forall i | 0 <= i < |p[1..]| - 1 ensures p[1..][i + 1] in p[1..][i].nexts {
      assert p[i + 1 + 1] in p[i + 1].nexts;
    }
  }

  /** No earlier successor than the first one is a way back. */
  lemma {:induction false} FirstIsFirst(nodes: set<Node>, avoid: set<Node>, init: Node, p: seq<Node>, c: nat, d: nat)
    requires p != [] && WayBack(nodes, avoid, p[0], init, p) && Simple(p) && c < d <= |p[0].nexts|
    requires p[0].nexts[c] == if |p| > 1 then p[1] else init
    ensures !NoWayBefore(nodes, avoid + {p[0]}, p[0], d, init)
  {
    if |p| > 1 {
      RestLeadsBack(nodes, avoid, init, p);
    }
  }

  /** There is at most one such path: the graph, with the order of the successors, determines it. */
  lemma {:induction false} LeftmostIsUnique(nodes: set<Node>, stack: set<Node>, init: Node, p: seq<Node>, q: seq<Node>)
    requires p != [] && q != [] && p[0] == q[0] && (init == p[0] || init in stack)
    requires WayBack(nodes, stack, p[0], init, p) && Simple(p) && Leftmost(nodes, stack, init, p)
    requires WayBack(nodes, stack, q[0], init, q) && Simple(q) && Leftmost(nodes, stack, init, q)
    ensures p == q
    decreases |p|
  {
    var node := p[0];
    var next, next' := if |p| > 1 then p[1] else init, if |q| > 1 then q[1] else init;
    var c :| 0 <= c < |node.nexts| && node.nexts[c] == next && NoWayBefore(nodes, stack + {node}, node, c, init);
    var d :| 0 <= d < |node.nexts| && node.nexts[d] == next' && NoWayBefore(nodes, stack + {node}, node, d, init);
    if c < d {
      FirstIsFirst(nodes, stack, init, p, c, d);
    } else if d < c {
      FirstIsFirst(nodes, stack, init, q, d, c);
    }
    if |p| > 1 {
      RestLeadsBack(nodes, stack, init, p);
    }
    if |q| > 1 {
      RestLeadsBack(nodes, stack, init, q);
    }
    if |p| > 1 && |q| > 1 {
      LeftmostIsUnique(nodes, stack + {node}, init, p[1..], q[1..]);
    }
    assert p == [node] + p[1..] && q == [node] + q[1..];
  }

  /** The cycle of a node is a recursion exactly when the node is its own successor and no earlier one leads
      back. */
  lemma {:induction false} RecursionExactly(nodes: set<Node>, node: Node, p: seq<Node>)
    requires InGraph(nodes, p) && Cycle(p) && Simple(p) && p[0] == node && Leftmost(nodes, {}, node, p)
    ensures |p| == 1 <==> FirstWay(nodes, {node}, node, node, node)
  {
    assert {} + {node} == {node};
    if FirstWay(nodes, {node}, node, node, node) {
      assert WayBack(nodes, {}, node, node, [node]) && Leftmost(nodes, {node}, node, [node][1..]);
      assert Leftmost(nodes, {}, node, [node]);
      LeftmostIsUnique(nodes, {}, node, p, [node]);
    }
  }

  // ---------------------------------------------------------------- the search

  /** The node is tagged before its successors are searched. */
  method Mark(ghost nodes: set<Node>, ghost done: set<Node>, node: Node, ghost init: Node)
    requires node in nodes && node.tag <= 0 && Explored(nodes, done, init)
    modifies node`tag
    ensures Untagged(nodes) == old(Untagged(nodes)) - {node} && node.tag > 0
    ensures Explored(nodes, done + old(Untagged(nodes)) - {node}, init)
  {
    node.tag := 1;
  }

  /** fc_get_cycle_: searches init from `node`, which is `lng` calls away from it; `stack` holds the nodes in
      between.  A positive result is the length of a cycle; `path` is the part of it from `node` on, and
      `last` its last node.  When the result is 0, the search has explored every node that it has tagged. */
  method Search(ghost nodes: set<Node>, ghost done: set<Node>, ghost stack: set<Node>, node: Node, init: Node, lng: nat)
    returns (ret: int, last: Node?, ghost path: seq<Node>)
    requires Closed(nodes) && node in nodes && init in nodes && Explored(nodes, done, init)
    requires nodes <= stack + done + Untagged(nodes)
    requires lng == 0 ==> node == init
    modifies nodes`tag
    decreases Untagged(nodes), 0
    ensures Untagged(nodes) <= old(Untagged(nodes)) && ret >= 0
    ensures ret == 0 ==> Explored(nodes, done + old(Untagged(nodes)), init)
    ensures ret == 0 ==> node.tag > 0 && (lng != 0 ==> node != init)
    ensures ret > 0 ==> ret == lng + |path| && Leads(nodes, old(Untagged(nodes)), node, init, path, last)
    ensures ret > 0 ==> Leftmost(nodes, stack, init, path)
  {
    if node == init && lng != 0 {
      return lng, null, [];
    }
    if node.tag > 0 {
      return 0, null, [];
    }
    ghost var free := Untagged(nodes);
    Mark(nodes, done, node, init);
    ret, last, path := SearchNexts(nodes, done + free - {node}, stack, node, init, lng);
  }

  /** The loop over the successors of a node that has just been tagged. */
  method SearchNexts(ghost nodes: set<Node>, ghost seen: set<Node>, ghost stack: set<Node>, node: Node, init: Node,
      lng: nat)
    returns (ret: int, last: Node?, ghost path: seq<Node>)
    requires Closed(nodes) && node in nodes && init in nodes && Explored(nodes, seen, init)
    requires nodes <= stack + {node} + seen && Untagged(nodes) <= seen && node !in seen && node.tag > 0
    modifies nodes`tag
    decreases Untagged(nodes), 1
    ensures Untagged(nodes) <= old(Untagged(nodes)) && ret >= 0
    ensures ret == 0 ==> Explored(nodes, seen + {node}, init) && node.tag > 0
    ensures ret > 0 ==> ret == lng + |path| && Leads(nodes, old(Untagged(nodes)) + {node}, node, init, path, last)
    ensures ret > 0 ==> Leftmost(nodes, stack, init, path)
  {
    ghost var free, avoid := Untagged(nodes), stack + {node};
    var i := 0;
    while i < |node.nexts|
      invariant 0 <= i <= |node.nexts| && node !in Untagged(nodes)
      invariant Untagged(nodes) <= free
      invariant Explored(nodes, seen, init)
      invariant forall k :: 0 <= k < i ==> node.nexts[k] != init && node.nexts[k] !in Untagged(nodes)
    {
      DeadEnds(nodes, seen, avoid, node, i, init);
      ret, last, path := Search(nodes, seen, avoid, node.nexts[i], init, lng + 1);
      if ret > 0 {
        LeadsFrom(nodes, free + {node}, node, node.nexts[i], init, path, last);
        LeftmostFrom(nodes, stack, node, i, init, path);
        if last == null {
          last := node;
        }
        path := [node] + path;
        return;
      }
      i := i + 1;
    }
    return 0, null, [];
  }

  lemma {:induction false} LeftmostFrom(nodes: set<Node>, stack: set<Node>, node: Node, i: nat, init: Node,
      path: seq<Node>)
    requires node in nodes && i < |node.nexts| && node.nexts[i] == if path == [] then init else path[0]
    requires NoWayBefore(nodes, stack + {node}, node, i, init) && Leftmost(nodes, stack + {node}, init, path)
    ensures Leftmost(nodes, stack, init, [node] + path)
  {
    assert ([node] + path)[1..] == path;
  }

  /** When the search from init has come back without result, init is on no cycle. */
  lemma {:induction false} ExploredMeansNoCycle(nodes: set<Node>, init: Node, p: seq<Node>, k: nat)
    requires Explored(nodes, nodes, init) && init in nodes && init.tag > 0
    requires InGraph(nodes, p) && Path(p) && p[0] == init && k < |p|
    ensures p[k].tag > 0 && init !in p[k].nexts
  {
    if k > 0 {
      ExploredMeansNoCycle(nodes, init, p, k - 1);
      assert p[k - 1 + 1] in p[k - 1].nexts;
    }
  }

  lemma {:induction false} OwnSuccessor(nodes: set<Node>, node: Node)
    requires FirstWay(nodes, {node}, node, node, node)
    ensures OnCycle(nodes, node)
  {
    assert InGraph(nodes, [node]) && Cycle([node]) && [node][0] == node;
  }

  ghost function Members(list: seq<Node>): set<Node> {
    set i | 0 <= i < |list| :: list[i]
  }

  /** fc_get_cycle: positive exactly when the node is on a cycle; then the result is the length of the
      leftmost simple cycle from the node, and `last` the node of it that calls the first one.  The result is 1
      exactly when the node calls itself and no successor before leads back. */
  method GetCycle(list: seq<Node>, node: Node) returns (ret: int, last: Node?, ghost path: seq<Node>)
    requires Closed(Members(list)) && node in Members(list)
    modifies Members(list)`tag
    ensures ret >= 0 && (ret > 0 <==> OnCycle(Members(list), node))
    ensures ret > 0 ==> InGraph(Members(list), path) && Cycle(path) && Simple(path)
    ensures ret > 0 ==> |path| == ret && path[0] == node && last == path[ret - 1]
    ensures ret > 0 ==> Leftmost(Members(list), {}, node, path)
    ensures ret == 1 <==> FirstWay(Members(list), {node}, node, node, node)
  {
    ghost var nodes := Members(list);
    var i := 0;
    while i < |list|
      invariant 0 <= i <= |list|
      invariant forall k :: 0 <= k < i ==> list[k].tag == 0
    {
      assert list[i] in nodes;
      list[i].tag := 0;
      i := i + 1;
    }
    assert Untagged(nodes) == nodes;
    ret, last, path := Search(nodes, {}, {}, node, node, 0);
    if ret > 0 {
      assert Cycle(path);
      RecursionExactly(nodes, node, path);
    } else {
      forall p: seq<Node> | InGraph(nodes, p) && Cycle(p) && p[0] == node ensures false {
        ExploredMeansNoCycle(nodes, node, p, |p| - 1);
      }
      if FirstWay(nodes, {node}, node, node, node) {
        OwnSuccessor(nodes, node);
      }
    }
  }

  /** How many of the first k nodes of the list are on a cycle. */
  ghost function CyclicNodes(list: seq<Node>, k: nat): nat
    requires k <= |list|
    reads Members(list)`nexts
  {
    if k == 0 then 0 else CyclicNodes(list, k - 1) + if OnCycle(Members(list), list[k - 1]) then 1 else 0
  }

  /** A report names a place in the list, and the length and the last node of a cycle from the node there. */
  datatype Report = Report(at: nat, length: int, last: Node)

  /** It is that of the leftmost simple cycle. */
  ghost predicate ReportOf(list: seq<Node>, r: Report)
    reads Members(list)`nexts
  {
    r.at < |list| && exists p: seq<Node> :: ReportsCycle(list, r, p)
  }

  ghost predicate ReportsCycle(list: seq<Node>, r: Report, older p: seq<Node>)
    requires r.at < |list|
    reads Members(list)`nexts
  {
    && InGraph(Members(list), p) && Cycle(p) && Simple(p) && Leftmost(Members(list), {}, list[r.at], p)
    && p[0] == list[r.at] && |p| == r.length && p[|p| - 1] == r.last
  }

  /** The graph determines what is reported of a node. */
  lemma {:induction false} ReportIsDetermined(list: seq<Node>, r: Report, r': Report)
    requires ReportOf(list, r) && ReportOf(list, r') && r.at == r'.at
    ensures r == r'
  {
    var p: seq<Node> :| ReportsCycle(list, r, p);
    var q: seq<Node> :| ReportsCycle(list, r', q);
    LeftmostIsUnique(Members(list), {}, list[r.at], p, q);
  }

  predicate Reported(reports: seq<Report>, i: nat) {
    exists j :: 0 <= j < |reports| && reports[j].at == i
  }

  /** The reports on the first k nodes: in the order of the list, one for each that is on a cycle. */
  ghost predicate Reports(list: seq<Node>, reports: seq<Report>, k: nat)
    requires k <= |list|
    reads Members(list)`nexts
  {
    && (forall j :: 0 <= j < |reports| ==> reports[j].at < k && ReportOf(list, reports[j]))
    && (forall i, j :: 0 <= i < j < |reports| ==> reports[i].at < reports[j].at)
    && Complete(list, reports, k) && |reports| == CyclicNodes(list, k)
  }

  ghost predicate Complete(list: seq<Node>, reports: seq<Report>, k: nat)
    requires k <= |list|
    reads Members(list)`nexts
  {
    forall i {:trigger Reported(reports, i)} :: 0 <= i < k ==>
      (OnCycle(Members(list), list[i]) <==> Reported(reports, i))
  }

  lemma {:induction false} NoReport(list: seq<Node>, reports: seq<Report>, k: nat)
    requires k < |list| && Reports(list, reports, k) && !OnCycle(Members(list), list[k])
    ensures Reports(list, reports, k + 1)
  {
  }

  lemma {:induction false} ReportedMore(reports: seq<Report>, r: Report, i: nat)
    ensures Reported(reports + [r], i) <==> Reported(reports, i) || r.at == i
  {
    var more := reports + [r];
    assert more[|reports|] == r;
    if j :| 0 <= j < |reports| && reports[j].at == i {
      assert more[j].at == i;
    }
  }

  lemma {:induction false} CompleteMore(list: seq<Node>, reports: seq<Report>, k: nat, r: Report)
    requires k < |list| && Complete(list, reports, k) && OnCycle(Members(list), list[k]) && r.at == k
    ensures Complete(list, reports + [r], k + 1)
  {
    forall i | 0 <= i <= k
      ensures OnCycle(Members(list), list[i]) <==> Reported(reports + [r], i)
    {
      ReportedMore(reports, r, i);
      assert i < k ==> (OnCycle(Members(list), list[i]) <==> Reported(reports, i));
    }
  }

  lemma {:induction false} OneReport(list: seq<Node>, reports: seq<Report>, k: nat, r: Report)
    requires k < |list| && Reports(list, reports, k) && OnCycle(Members(list), list[k])
    requires r.at == k && ReportOf(list, r)
    ensures Reports(list, reports + [r], k + 1)
  {
    CompleteMore(list, reports, k, r);
    var more := reports + [r];
    forall j | 0 <= j < |more| ensures more[j].at < k + 1 && ReportOf(list, more[j]) {
      assert j < |reports| ==> more[j] == reports[j];
    }
  }

  /** The report on one node. */
  method ReportOn(list: seq<Node>, reports: seq<Report>, ncycle: nat, i: nat)
    returns (reports': seq<Report>, ncycle': nat)
    requires i < |list| && Closed(Members(list)) && Reports(list, reports, i)
    modifies Members(list)`tag
    ensures Reports(list, reports', i + 1) && ncycle' - |reports'| == ncycle - |reports|
  {
    reports', ncycle' := reports, ncycle;
    assert list[i] in Members(list);
    var ret, last;
    ghost var path;
    ret, last, path := GetCycle(list, list[i]);
    if ret == 0 {
      NoReport(list, reports, i);
    }
    if ret == 1 {
      assert ReportsCycle(list, Report(i, 1, list[i]), path);
      OneReport(list, reports, i, Report(i, 1, list[i]));
      reports' := reports' + [Report(i, 1, list[i])];
      ncycle' := ncycle' + 1;
    }
    if ret > 1 {
      assert ReportsCycle(list, Report(i, ret, last), path);
      OneReport(list, reports, i, Report(i, ret, last));
      reports' := reports' + [Report(i, ret, last)];
      ncycle' := ncycle' + 1;
    }
  }

  /** fc_compute_cycles: reports, for each registered node that is on a cycle, once, the length of a
      simple one from it, and returns the number of reports. */
  method ComputeCycles(list: seq<Node>) returns (count: nat, reports: seq<Report>)
    requires Closed(Members(list))
    modifies Members(list)`tag
    ensures count == |reports| == CyclicNodes(list, |list|) && Reports(list, reports, |list|)
  {
    var ncycle := 1;
    reports := [];
    var i := 0;
    while i < |list|
      invariant 0 <= i <= |list| && ncycle == |reports| + 1 && Reports(list, reports, i)
    {
      reports, ncycle := ReportOn(list, reports, ncycle, i);
      i := i + 1;
    }
    count := ncycle - 1;
  }
}
