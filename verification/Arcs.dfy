/** The arcs of the call graph that the manager counts (src/fcmanager/main.c:199-204, 255-265,
    src/fcmanager/fc_graph.c:36-66), and the calls that the profiled program made.  All laws are about
    the sum of the counts over an arbitrary set of keys: that of one arc, of all arcs into a function,
    or of all arcs. */
module Arcs {
  import opened Accounting
  import opened Manager
  import opened Maps

  /** Two calls share a key exactly when their addresses agree in the low words. */
  lemma {:induction false} KeysCollide(a: int, b: int, c: int, d: int)
    ensures Key(a, b) == Key(c, d) <==> a % U32_RANGE == c % U32_RANGE && b % U32_RANGE == d % U32_RANGE
  {
  }

  /** A call from `from` to `to` has an arc in the table, with a key of the set. */
  predicate Recorded(from: int, to: int, keys: int -> bool) {
    from != NULL && to != NULL && Key(from, to) != 0 && keys(Key(from, to))
  }

  /** The arcs with a key of the set, and the sum of their counts. */
  function Only(arcs: map<int, int>, keys: int -> bool): map<int, int> {
    map k | k in arcs && keys(k) :: arcs[k]
  }

  ghost function Count(arcs: map<int, int>, keys: int -> bool): int {
    Total(Only(arcs, keys))
  }

  /** ENTER messages. */
  function Calls(ms: seq<Message>, keys: int -> bool): nat {
    if ms == [] then 0 else
    var m := ms[|ms| - 1];
    Calls(ms[..|ms| - 1], keys) + if m.EnterMsg? && Recorded(m.from, m.f, keys) then 1 else 0
  }

  /** EXIT messages. */
  function Returns(ms: seq<Message>, keys: int -> bool): nat {
    if ms == [] then 0 else
    var m := ms[|ms| - 1];
    Returns(ms[..|ms| - 1], keys) + if m.ExitMsg? && Recorded(m.from, m.f, keys) then 1 else 0
  }

  /** Calls that have not returned. */
  function Frames(stack: seq<Frame>, keys: int -> bool): nat {
    if stack == [] then 0 else
    Frames(stack[..|stack| - 1], keys) + if Recorded(Top(stack).site, Top(stack).symbol, keys) then 1 else 0
  }

  lemma {:induction false} AddArcCounts(arcs: map<int, int>, from: int, to: int, keys: int -> bool)
    requires to != NULL
    ensures Count(AddArc(arcs, from, to), keys) == Count(arcs, keys) + if Recorded(from, to, keys) then 1 else 0
  {
    var k, after := Key(from, to), AddArc(arcs, from, to);
    if !Recorded(from, to, keys) {
      SameMap(Only(after, keys), Only(arcs, keys));
    } else if k in arcs {
      TotalUpdate(Only(arcs, keys), k, arcs[k] + 1);
      SameMap(Only(after, keys), Only(arcs, keys)[k := arcs[k] + 1]);
    } else {
      TotalInsert(Only(arcs, keys), k, 1);
      SameMap(Only(after, keys), Only(arcs, keys)[k := 1]);
    }
  }

  lemma {:induction false} CountNone(keys: int -> bool)
    ensures Count(map[], keys) == 0
  {
    var none := Only(map[], keys);
    SumZero(none.Keys, none);
  }

  /** The arcs count the EXIT messages, whether or not they were accepted. */
  lemma {:induction false} ArcsCountReturns(first: int, ms: seq<Message>, keys: int -> bool)
    ensures Count(HandleAll(NewSession(first), ms).arcs, keys) == Returns(ms, keys)
  {
    if ms == [] {
      CountNone(keys);
    } else {
      var most, m := ms[..|ms| - 1], ms[|ms| - 1];
      ArcsCountReturns(first, most, keys);
      if m.ExitMsg? && m.f != NULL {
        AddArcCounts(HandleAll(NewSession(first), most).arcs, m.from, m.f, keys);
      }
    }
  }

  /** The flush counts the frames that are left. */
  lemma {:induction false} FlushCountsFrames(s: Session, keys: int -> bool)
    requires StackKnown(s.ctx)
    ensures Count(Flush(s).arcs, keys) == Count(s.arcs, keys) + Frames(s.ctx.stack, keys)
    decreases |s.ctx.stack|
  {
    var stack := s.ctx.stack;
    if stack != [] {
      if Top(stack).symbol != NULL {
        AddArcCounts(s.arcs, Top(stack).site, Top(stack).symbol, keys);
      }
      FlushCountsFrames(FlushOne(s), keys);
    }
  }

  /** Every EXIT message leaves the function on top of the stack, at the call site it was called from. */
  predicate WellNested(ms: seq<Message>) {
    ms == [] ||
    var most, m := ms[..|ms| - 1], ms[|ms| - 1];
    && WellNested(most)
    && (m.ExitMsg? && m.f != NULL ==>
          var stack := StackAfter(Events(most));
          stack != [] && Top(stack).symbol == m.f && Top(stack).site == m.from)
  }

  lemma {:induction false} NestedCalls(ms: seq<Message>, keys: int -> bool)
    requires WellNested(ms)
    ensures Calls(ms, keys) == Returns(ms, keys) + Frames(StackAfter(Events(ms)), keys)
  {
    if ms != [] {
      NestedCalls(ms[..|ms| - 1], keys);
      EventsStack(ms);
      var before := StackAfter(Events(ms[..|ms| - 1]));
      var stack := StackAfter(Events(ms));
      if ms[|ms| - 1].EnterMsg? {
        assert stack[..|stack| - 1] == before;
      }
    }
  }

  /** What a message does to the stack. */
  lemma {:induction false} EventsStack(ms: seq<Message>)
    requires ms != []
    ensures
      var m, before := ms[|ms| - 1], StackAfter(Events(ms[..|ms| - 1]));
      StackAfter(Events(ms)) ==
        if m.EnterMsg? then before + [Frame(m.f, m.from, m.time)]
        else if m.ExitMsg? && m.f != NULL && before != [] && Top(before).symbol == m.f then before[..|before| - 1]
        else before
  {
    var es, m := Events(ms[..|ms| - 1]), ms[|ms| - 1];
    if m.EnterMsg? {
      assert (es + [Enter(m.f, m.from, m.time)])[..|es|] == es;
    } else if m.ExitMsg? {
      assert (es + [Exit(m.f, m.time)])[..|es|] == es;
    }
  }

  /** Without any assumption, the flushed arcs count the returns and the calls that had not returned. */
  lemma {:induction false} ArcsAfterFlush(first: int, ms: seq<Message>, keys: int -> bool)
    ensures Count(Flush(HandleAll(NewSession(first), ms)).arcs, keys)
      == Returns(ms, keys) + Frames(StackAfter(Events(ms)), keys)
  {
    HandleIsRun(first, ms);
    StackSame(Events(ms));
    ArcsCountReturns(first, ms, keys);
    FlushCountsFrames(HandleAll(NewSession(first), ms), keys);
  }

  /** Arcs agree with calls: after the flush the arcs with keys of any set count exactly the calls with
      such keys, also those that had not returned. */
  lemma {:induction false} ArcsAgreeWithCalls(first: int, ms: seq<Message>, keys: int -> bool)
    requires WellNested(ms)
    ensures Count(Flush(HandleAll(NewSession(first), ms)).arcs, keys) == Calls(ms, keys)
  {
    ArcsAfterFlush(first, ms, keys);
    NestedCalls(ms, keys);
  }

  // ---------------------------------------------------------------- one arc

  /** The key of calls from a call site to a function. */
  function Arc(from: int, to: int): int -> bool {
    k => k == Key(from, to)
  }

  /** ENTER messages for calls of a function with the low word of `to`, at a call site, not NULL, with
      the low word of `from`. */
  function SimilarCalls(ms: seq<Message>, from: int, to: int): nat {
    if ms == [] then 0 else
    var m := ms[|ms| - 1];
    SimilarCalls(ms[..|ms| - 1], from, to) +
    if m.EnterMsg? && m.from != NULL && m.f != NULL
      && m.from % U32_RANGE == from % U32_RANGE && m.f % U32_RANGE == to % U32_RANGE then 1 else 0
  }

  lemma {:induction false} CallsAreSimilar(ms: seq<Message>, from: int, to: int)
    requires Key(from, to) != 0
    ensures Calls(ms, Arc(from, to)) == SimilarCalls(ms, from, to)
  {
    if ms != [] {
      var m := ms[|ms| - 1];
      CallsAreSimilar(ms[..|ms| - 1], from, to);
      if m.EnterMsg? {
        KeysCollide(m.from, m.f, from, to);
      }
    }
  }

  lemma {:induction false} CountOne(arcs: map<int, int>, k: int, keys: int -> bool)
    requires forall j :: keys(j) <==> j == k
    ensures Count(arcs, keys) == if k in arcs then arcs[k] else 0
  {
    forall j | j in Only(arcs, keys) ensures j == k {
      assert keys(j);
    }
    TotalOne(Only(arcs, keys), k);
  }

  /** The arc of a call site and a function counts the calls whose addresses agree with theirs in the
      low words. */
  lemma {:induction false} ArcCountsSimilar(first: int, ms: seq<Message>, from: int, to: int)
    requires WellNested(ms) && Key(from, to) != 0
    ensures
      var arcs, k := Flush(HandleAll(NewSession(first), ms)).arcs, Key(from, to);
      (if k in arcs then arcs[k] else 0) == SimilarCalls(ms, from, to)
  {
    var keys := Arc(from, to);
    ArcsAgreeWithCalls(first, ms, keys);
    CallsAreSimilar(ms, from, to);
    CountOne(Flush(HandleAll(NewSession(first), ms)).arcs, Key(from, to), keys);
  }

  // ---------------------------------------------------------------- all arcs into a function

  /** The keys of arcs into `to`. */
  function Into(to: int): int -> bool {
    k => k % U32_RANGE == to % U32_RANGE
  }

  /** Calls of `f` that have no arc: without a call site, or with the key 0. */
  function WithoutArc(ms: seq<Message>, f: int): nat {
    if ms == [] then 0 else
    var m := ms[|ms| - 1];
    WithoutArc(ms[..|ms| - 1], f) + if m.EnterMsg? && m.f == f && (m.from == NULL || Key(m.from, f) == 0) then 1 else 0
  }

  /** Calls of other functions whose arcs are arcs into `f` as well. */
  function OfOthers(ms: seq<Message>, f: int): nat {
    if ms == [] then 0 else
    var m := ms[|ms| - 1];
    OfOthers(ms[..|ms| - 1], f) + if m.EnterMsg? && m.f != f && Recorded(m.from, m.f, Into(f)) then 1 else 0
  }

  lemma {:induction false} CallsInto(ms: seq<Message>, f: int)
    requires f != NULL
    ensures Calls(ms, Into(f)) == Enters(Events(ms), f) - WithoutArc(ms, f) + OfOthers(ms, f)
  {
    if ms != [] {
      var most, m := ms[..|ms| - 1], ms[|ms| - 1];
      var es := Events(most);
      CallsInto(most, f);
      if m.EnterMsg? {
        assert (es + [Enter(m.f, m.from, m.time)])[..|es|] == es;
        assert Key(m.from, m.f) % U32_RANGE == m.f % U32_RANGE;
      } else if m.ExitMsg? {
        assert (es + [Exit(m.f, m.time)])[..|es|] == es;
      }
    }
  }

  /** After the flush, the counts of the arcs into a function sum up to its number of calls, less those
      without an arc, plus those of functions that agree with it in the low word. */
  lemma {:induction false} ArcsSumToCalls(first: int, ms: seq<Message>, f: int)
    requires WellTimed(ms) && WellNested(ms) && f != NULL
    ensures var t := Flush(HandleAll(NewSession(first), ms));
      Count(t.arcs, Into(f)) == RecordOf(t.ctx, f).calls - WithoutArc(ms, f) + OfOthers(ms, f)
  {
    var s := HandleAll(NewSession(first), ms);
    ArcsAgreeWithCalls(first, ms, Into(f));
    CallsInto(ms, f);
    FlushedAccounts(first, ms);
    FaithfulAt(Seen(first, ms), f);
    FlushEnters(Events(ms), s.ctx.stack, s.last, f);
  }

  /** The calls of `f` have arcs of their own: no call of it is without a call site or has the key 0,
      and no other function that is called agrees with it in the low word. */
  predicate Alone(ms: seq<Message>, f: int) {
    forall i :: 0 <= i < |ms| && ms[i].EnterMsg? && ms[i].f % U32_RANGE == f % U32_RANGE ==>
      ms[i].f == f && ms[i].from != NULL && Key(ms[i].from, f) != 0
  }

  /** Then the sum is the number of calls. */
  lemma {:induction false} AloneHasAll(ms: seq<Message>, f: int)
    requires Alone(ms, f)
    ensures WithoutArc(ms, f) == 0 && OfOthers(ms, f) == 0
  {
    if ms != [] {
      var m := ms[|ms| - 1];
      AloneHasAll(ms[..|ms| - 1], f);
      assert m.EnterMsg? ==> Key(m.from, m.f) % U32_RANGE == m.f % U32_RANGE;
    }
  }

  lemma {:induction false} ExitIsNoEnter(es: seq<Event>, e: Event, f: int)
    requires e.Exit?
    ensures Enters(es + [e], f) == Enters(es, f)
  {
    assert (es + [e])[..|es|] == es;
  }

  lemma {:induction false} FlushEnters(es: seq<Event>, stack: seq<Frame>, t: int, f: int)
    ensures Enters(es + FlushEvents(stack, t), f) == Enters(es, f)
    decreases |stack|
  {
    if stack == [] {
      assert es + [] == es;
    } else {
      var e, rest := Exit(Top(stack).symbol, t), FlushEvents(stack[..|stack| - 1], t);
      assert es + ([e] + rest) == es + [e] + rest;
      FlushEnters(es + [e], stack[..|stack| - 1], t, f);
      ExitIsNoEnter(es, e, f);
    }
  }
}
