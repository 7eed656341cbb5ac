/** The hash table in which the manager keeps the call graph of one context
    (src/fcmanager/main.c:199-204, 249-268, src/fcmanager/fc_graph.c:36-73). */
module GraphTable {
  import opened Accounting
  import opened Manager
  import opened HashTable
  import A = Arcs
  import FreeList
  import LHash
  import Maps

  datatype Addition = Addition(from: int, to: int)

  /** The calls of fc_graph_add_single while messages are handled. */
  function Returned(ms: seq<Message>): seq<Addition> {
    if ms == [] then [] else
    var m := ms[|ms| - 1];
    Returned(ms[..|ms| - 1]) + if m.ExitMsg? && m.f != NULL then [Addition(m.from, m.f)] else []
  }

  /** Those of the flush. */
  function Flushed(stack: seq<Frame>): seq<Addition> {
    if stack == [] then [] else
    (if Top(stack).symbol != NULL then [Addition(Top(stack).site, Top(stack).symbol)] else [])
    + Flushed(stack[..|stack| - 1])
  }

  function Additions(first: int, ms: seq<Message>): seq<Addition> {
    Returned(ms) + Flushed(HandleAll(NewSession(first), ms).ctx.stack)
  }

  function AddAll(arcs: map<int, int>, xs: seq<Addition>): map<int, int> {
    if xs == [] then arcs else AddArc(AddAll(arcs, xs[..|xs| - 1]), xs[|xs| - 1].from, xs[|xs| - 1].to)
  }

  lemma {:induction false} AddMore(arcs: map<int, int>, xs: seq<Addition>, ys: seq<Addition>)
    ensures AddAll(arcs, xs + ys) == AddAll(AddAll(arcs, xs), ys)
  {
    if ys == [] {
      assert xs + ys == xs;
    } else {
      AddMore(arcs, xs, ys[..|ys| - 1]);
      assert (xs + ys)[..|xs + ys| - 1] == xs + ys[..|ys| - 1];
    }
  }

  lemma {:induction false} HandleAdds(first: int, ms: seq<Message>)
    ensures HandleAll(NewSession(first), ms).arcs == AddAll(map[], Returned(ms))
  {
    if ms != [] {
      var most, m := ms[..|ms| - 1], ms[|ms| - 1];
      HandleAdds(first, most);
      if m.ExitMsg? && m.f != NULL {
        assert (Returned(most) + [Addition(m.from, m.f)])[..|Returned(most)|] == Returned(most);
      } else {
        assert Returned(ms) == Returned(most);
      }
    }
  }

  lemma {:induction false} FlushAdds(s: Session)
    requires StackKnown(s.ctx)
    ensures Flush(s).arcs == AddAll(s.arcs, Flushed(s.ctx.stack))
    decreases |s.ctx.stack|
  {
    var stack := s.ctx.stack;
    if stack != [] {
      FlushAdds(FlushOne(s));
      if Top(stack).symbol != NULL {
        var x := Addition(Top(stack).site, Top(stack).symbol);
        assert [x][..0] == [];
        assert AddAll(s.arcs, [x]) == AddArc(s.arcs, x.from, x.to);
        AddMore(s.arcs, [x], Flushed(stack[..|stack| - 1]));
      } else {
        assert Flushed(stack) == Flushed(stack[..|stack| - 1]);
      }
    }
  }

  /** The arcs of a context are these additions, in order. */
  lemma {:induction false} SessionAdds(first: int, ms: seq<Message>)
    ensures Flush(HandleAll(NewSession(first), ms)).arcs == AddAll(map[], Additions(first, ms))
  {
    var s := HandleAll(NewSession(first), ms);
    HandleAdds(first, ms);
    FlushAdds(s);
    AddMore(map[], Returned(ms), Flushed(s.ctx.stack));
  }

  /** As many arcs as a table can hold. */
  ghost predicate FullOfArcs(arcs: map<int, int>) {
    |arcs| == FreeList.INT_MAX - FreeList.INITIAL
  }

  lemma {:induction false} FullOfCounts(contents: map<LHash.Key, LHash.Data>)
    ensures Full(contents) <==> FullOfArcs(CountsOf(contents))
  {
    assert |contents| == |contents.Keys| && |CountsOf(contents)| == |CountsOf(contents).Keys|;
    Maps.SameSet(contents.Keys, CountsOf(contents).Keys);
  }

  /** An addition that needs a new arc in such a table. */
  ghost predicate Breaks(arcs: map<int, int>, x: Addition) {
    x.from != NULL && Key(x.from, x.to) != 0 && Key(x.from, x.to) !in arcs && FullOfArcs(arcs)
  }

  ghost predicate Destroys(xs: seq<Addition>) {
    xs != [] && (Destroys(xs[..|xs| - 1]) || Breaks(AddAll(map[], xs[..|xs| - 1]), xs[|xs| - 1]))
  }

  lemma {:induction false} DestroysMore(xs: seq<Addition>, i: nat)
    requires i <= |xs| && Destroys(xs[..i])
    ensures Destroys(xs)
    decreases |xs| - i
  {
    if i < |xs| {
      assert xs[..i + 1][..i] == xs[..i];
      DestroysMore(xs, i + 1);
    } else {
      assert xs[..i] == xs;
    }
  }

  lemma {:induction false} AddOne(arcs: map<int, int>, x: Addition)
    ensures var k := Key(x.from, x.to);
      |AddArc(arcs, x.from, x.to)| == |arcs| + if x.from != NULL && k != 0 && k !in arcs then 1 else 0
  {
    var more := AddArc(arcs, x.from, x.to);
    assert more.Keys == arcs.Keys || more.Keys == arcs.Keys + {Key(x.from, x.to)};
    assert |arcs| == |arcs.Keys| && |more| == |more.Keys|;
  }

  /** Since no arc is ever removed, the table is destroyed exactly when there are more arcs than it can
      hold. */
  lemma {:induction false} DestroysExactly(xs: seq<Addition>)
    ensures Destroys(xs) <==> |AddAll(map[], xs)| > FreeList.INT_MAX - FreeList.INITIAL
  {
    if xs != [] {
      DestroysExactly(xs[..|xs| - 1]);
      AddOne(AddAll(map[], xs[..|xs| - 1]), xs[|xs| - 1]);
    }
  }

  /** One addition to the table. */
  method Count(graph: Table, x: Addition)
    requires graph.Valid()
    modifies graph, graph.nodes, graph.shape.all
    ensures graph.alive ==>
              graph.Valid() && CountsOf(graph.Contents()) == AddArc(old(CountsOf(graph.Contents())), x.from, x.to)
    ensures !graph.alive <==> Breaks(old(CountsOf(graph.Contents())), x)
    ensures old(graph.shape.all) <= graph.shape.all && fresh(graph.shape.all - old(graph.shape.all))
    ensures graph.nodes == old(graph.nodes) || fresh(graph.nodes)
  {
    FullOfCounts(graph.Contents());
    graph.AddArc(x.from, x.to);
  }

  /** The additions on a new table. */
  method CountAll(xs: seq<Addition>) returns (graph: Table)
    ensures graph.alive ==> graph.Valid() && CountsOf(graph.Contents()) == AddAll(map[], xs)
    ensures !graph.alive <==> Destroys(xs)
  {
    graph := new Table();
    var i := 0;
    while i < |xs|
      invariant 0 <= i <= |xs| && graph.Valid() && CountsOf(graph.Contents()) == AddAll(map[], xs[..i])
      invariant !Destroys(xs[..i])
      invariant fresh(graph) && fresh(graph.nodes) && fresh(graph.shape.all)
    {
      assert xs[..i + 1][..i] == xs[..i];
      Count(graph, xs[i]);
      if !graph.alive {
        DestroysMore(xs, i + 1);
        return;
      }
      i := i + 1;
    }
    assert xs[..|xs|] == xs;
  }

  /** The table of a context ends with the arcs of the session, and when exits match calls its counts over
      any set of keys are the numbers of calls; but it is destroyed exactly when the session has more
      arcs than a table can hold. */
  method Graph(first: int, ms: seq<Message>) returns (graph: Table)
    ensures graph.alive ==>
              && graph.Valid()
              && CountsOf(graph.Contents()) == Flush(HandleAll(NewSession(first), ms)).arcs
              && (A.WellNested(ms) ==> forall keys :: A.Count(CountsOf(graph.Contents()), keys) == A.Calls(ms, keys))
    ensures !graph.alive <==>
              |Flush(HandleAll(NewSession(first), ms)).arcs| > FreeList.INT_MAX - FreeList.INITIAL
  {
    graph := CountAll(Additions(first, ms));
    DestroysExactly(Additions(first, ms));
    SessionAdds(first, ms);
    if A.WellNested(ms) {
      forall keys ensures A.Count(Flush(HandleAll(NewSession(first), ms)).arcs, keys) == A.Calls(ms, keys) {
        A.ArcsAgreeWithCalls(first, ms, keys);
      }
    }
  }
}
