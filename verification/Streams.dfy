/** The contexts of the manager at the end of a stream of messages (src/fcmanager/main.c:102-268): what
    of them depends on other senders, and by how much. */
module Streams {
  import opened Accounting
  import opened Manager
  import opened Dispatch
  import opened Packets
  import opened Maps

  /** Each context has the functions, the stack and the arcs of its sender's own messages before the
      flush; and after it the same arcs, and the same functions exactly when nothing is left on the
      stack or its last time is the sender's own. */
  lemma {:induction false} ContextsAreOwn(id: int, start: int, v: Time, v': Time, xs: seq<Sent>, i: nat)
    requires i < |DeliverAll(History(id, start, v, xs))|
    ensures var d := DeliverAll(History(id, start, v, xs))[i];
      var e, own := FlushAll(DeliverAll(History(id, start, v, xs)))[i], Alone(start, v', xs, d.id);
      && d.s.ctx == own.ctx && d.s.arcs == own.arcs && e.s.arcs == Flush(own).arcs
      && (e.s.ctx == Flush(own).ctx <==> !SomeNamed(own.ctx.stack) || OwnTime(xs, d.id))
  {
    var h := History(id, start, v, xs);
    var x := DeliverAll(h)[i].id;
    ContextsAreMixed(id, start, v, xs, i);
    OwnBeforeFlush(FirstTime(h, x), start, v, v', xs, x);
    OwnAfterFlushExactly(FirstTime(h, x), start, v, v', xs, x);
  }

  // ---------------------------------------------------------------- ordered streams

  /** The times in the stream do not decrease, whoever sends them, and functions are not NULL.  Clients
      read the clock while they have the buffer for themselves. */
  predicate OrderedTimes(xs: seq<Sent>) {
    xs == [] ||
    var p, most := xs[|xs| - 1].p, xs[..|xs| - 1];
    && OrderedTimes(most)
    && (p.EnterPacket? ==> p.f != NULL)
    && (!p.UntimedPacket? ==> TimeAfter(0, most) <= p.time)
  }

  lemma {:induction false} OnlyOrdered(xs: seq<Sent>, id: int)
    requires OrderedTimes(xs)
    ensures OrderedTimes(Only(xs, id)) && TimeAfter(0, Only(xs, id)) <= TimeAfter(0, xs)
  {
    if xs != [] {
      var most := xs[..|xs| - 1];
      OnlyOrdered(most, id);
      if From(xs[|xs| - 1], id) {
        OnlyTime(0, xs, id);
        OrderedMore(Only(most, id), xs[|xs| - 1]);
      } else {
        assert Only(xs, id) == Only(most, id);
      }
    }
  }

  lemma {:induction false} OrderedMore(xs: seq<Sent>, x: Sent)
    ensures OrderedTimes(xs + [x]) <==>
      && OrderedTimes(xs)
      && (x.p.EnterPacket? ==> x.p.f != NULL)
      && (!x.p.UntimedPacket? ==> TimeAfter(0, xs) <= x.p.time)
  {
    assert (xs + [x])[..|xs|] == xs;
  }

  lemma {:induction false} MessagesTimed(xs: seq<Sent>, id: int)
    requires OrderedTimes(xs)
    ensures var ms := Messages(0, xs, id);
      WellTimed(ms) && forall i :: 0 <= i < |ms| && HasTime(ms[i]) ==> ms[i].time <= TimeAfter(0, xs)
  {
    if xs != [] {
      MessagesTimed(xs[..|xs| - 1], id);
    }
  }

  /** At the end of an ordered stream, whatever the mixture of senders, the local times of each context
      sum up to the time that its sender was inside some function, until the last time of the context,
      and its arcs count the calls. */
  lemma {:induction false} ContextsAccount(id: int, start: int, v: Time, xs: seq<Sent>, i: nat)
    requires OrderedTimes(xs) && i < |DeliverAll(History(id, start, v, xs))|
    ensures var e := FlushAll(DeliverAll(History(id, start, v, xs)))[i];
      Accounts(e.s, start, Messages(0, xs, e.id))
  {
    var h := History(id, start, v, xs);
    var x := DeliverAll(h)[i].id;
    ContextsAreMixed(id, start, v, xs, i);
    FirstTimeUnused(FirstTime(h, x), start, v, 0, xs, x);
    MessagesTimed(xs, x);
    SessionAccounts(start, Messages(0, xs, x));
  }

  // ---------------------------------------------------------------- time of others

  lemma {:induction false} SameEvents(v: Time, v': Time, xs: seq<Sent>, id: int)
    ensures Events(Messages(v, xs, id)) == Events(Messages(v', Only(xs, id), id))
  {
    if xs != [] {
      var x, most := xs[|xs| - 1], xs[..|xs| - 1];
      SameEvents(v, v', most, id);
      EventsMore(v, xs, id);
      if From(x, id) {
        assert Only(xs, id)[..|Only(most, id)|] == Only(most, id);
        EventsMore(v', Only(xs, id), id);
      } else {
        assert Only(xs, id) == Only(most, id);
      }
    }
  }

  lemma {:induction false} EventsMore(v: Time, xs: seq<Sent>, id: int)
    requires xs != []
    ensures var x, es := xs[|xs| - 1], Events(Messages(v, xs[..|xs| - 1], id));
      Events(Messages(v, xs, id)) ==
        if x.id == id && x.p.EnterPacket? then es + [Enter(x.p.f, x.p.from, x.p.time)]
        else if x.id == id && x.p.ExitPacket? && x.p.f != NULL then es + [Exit(x.p.f, x.p.time)]
        else es
  {
    var ms := Messages(v, xs[..|xs| - 1], id);
    if From(xs[|xs| - 1], id) {
      assert (ms + [Read(xs[|xs| - 1], TimeAfter(v, xs)).m])[..|ms|] == ms;
    } else {
      assert Messages(v, xs, id) == ms;
    }
  }

  /** The flush adds the time from the last event on, if something is on the stack. */
  lemma {:induction false} FlushBusy(es: seq<Event>, t: int)
    ensures var stack := StackAfter(es);
      BusyTime(es + FlushEvents(stack, t)) == BusyTime(es) + if stack == [] then 0 else t - Clock(es)
    decreases |StackAfter(es)|
  {
    var stack := StackAfter(es);
    if stack == [] {
      assert es + FlushEvents(stack, t) == es;
    } else {
      var more := es + [Exit(Top(stack).symbol, t)];
      assert more[..|es|] == es;
      assert StackAfter(more) == stack[..|stack| - 1] && Clock(more) == t;
      assert es + FlushEvents(stack, t) == more + FlushEvents(StackAfter(more), t);
      FlushBusy(more, t);
    }
  }

  /** The last time of a context in an ordered stream: at least the sender's own, and no later than the
      last time of the stream. */
  lemma {:induction false} LastIsLater(first: int, xs: seq<Sent>, id: int)
    requires OrderedTimes(xs) && HasEntered(xs, id)
    ensures Alone(first, 0, xs, id).last <= Mixed(first, 0, xs, id).last <= TimeAfter(0, xs)
  {
    var x, most := xs[|xs| - 1], xs[..|xs| - 1];
    LastMore(first, 0, xs, id);
    AloneLastMore(first, 0, xs, id);
    OnlyOrdered(most, id);
    if !(x.id == id && x.p.EnterPacket?) {
      LastIsLater(first, most, id);
    }
  }

  lemma {:induction false} TimeOfOthersFirst(first: int, xs: seq<Sent>, id: int)
    requires OrderedTimes(xs)
    ensures var s, t := Mixed(first, 0, xs, id), Alone(first, 0, xs, id);
      && Total(LocalTimes(Flush(s).ctx)) ==
           Total(LocalTimes(Flush(t).ctx)) + (if t.ctx.stack == [] then 0 else s.last - t.last)
      && (t.ctx.stack == [] || t.last <= s.last <= TimeAfter(0, xs))
  {
    var ms, ns := Messages(0, xs, id), Messages(0, Only(xs, id), id);
    var s, t := Mixed(first, 0, xs, id), Alone(first, 0, xs, id);
    MessagesTimed(xs, id);
    OnlyOrdered(xs, id);
    MessagesTimed(Only(xs, id), id);
    FlushedAccounts(first, ms);
    FlushedAccounts(first, ns);
    OwnBeforeFlush(first, first, 0, 0, xs, id);
    SameEvents(0, 0, xs, id);
    HandleIsRun(first, ms);
    StackSame(Events(ms));
    FlushBusy(Events(ms), s.last);
    FlushBusy(Events(ms), t.last);
    if t.ctx.stack != [] {
      StackMeansEntered(first, 0, xs, id);
      LastIsLater(first, xs, id);
    }
  }

  /** What the functions of a sender are charged with because of the others: the difference of the two
      last times, if it still is inside a function, and never less than nothing. */
  lemma {:induction false} TimeOfOthers(first: int, first': int, v: Time, v': Time, xs: seq<Sent>, id: int)
    requires OrderedTimes(xs)
    ensures var s, t := Mixed(first, v, xs, id), Alone(first', v', xs, id);
      && Total(LocalTimes(Flush(s).ctx)) ==
           Total(LocalTimes(Flush(t).ctx)) + (if t.ctx.stack == [] then 0 else s.last - t.last)
      && (t.ctx.stack == [] || t.last <= s.last <= TimeAfter(v, xs))
  {
    TimeOfOthersFirst(0, xs, id);
    FirstTimeUnused(first, 0, v, 0, xs, id);
    FirstTimeUnused(first', 0, v', 0, Only(xs, id), id);
    OwnBeforeFlush(first, first', v, v', xs, id);
    OwnBeforeFlush(first, 0, v, 0, xs, id);
    if Mixed(first, v, xs, id).ctx.stack != [] {
      StackMeansEntered(first, v, xs, id);
      OnlyEntered(xs, id);
      LastIsRead(first, 0, v, 0, xs, id);
      LastIsRead(first', 0, v', 0, Only(xs, id), id);
      TimeIsRead(v, 0, xs, id);
    }
  }

  // ---------------------------------------------------------------- a run

  /** Process 2 is inside f since time 10 when process 1 enters g at time 100; then process 2 gets some
      memory, and the stream ends. */
  const MEMORY_RUN := [Sent(2, EnterPacket(1, 8, 10)), Sent(1, EnterPacket(2, 9, 100)), Sent(2, UntimedPacket)]

  lemma {:induction false} OneMore(v: Time, xs: seq<Sent>, x: Sent, id: int)
    ensures TimeAfter(v, xs + [x]) == ReadTime(TimeAfter(v, xs), x.p)
    ensures Only(xs + [x], id) == Only(xs, id) + if From(x, id) then [x] else []
    ensures Messages(v, xs + [x], id) ==
      Messages(v, xs, id) + if From(x, id) then [Read(x, ReadTime(TimeAfter(v, xs), x.p)).m] else []
  {
    assert (xs + [x])[..|xs|] == xs;
  }

  lemma {:induction false} RunMessages(v: Time)
    ensures Messages(v, MEMORY_RUN, 2) == [EnterMsg(1, 8, 10), OtherMsg(100)]
    ensures Messages(v, Only(MEMORY_RUN, 2), 2) == [EnterMsg(1, 8, 10), OtherMsg(10)]
  {
    var x, y, z := MEMORY_RUN[0], MEMORY_RUN[1], MEMORY_RUN[2];
    OneMore(v, [], x, 2);
    OneMore(v, [] + [x], y, 2);
    OneMore(v, [] + [x] + [y], z, 2);
    OneMore(v, [] + [x], z, 2);
    assert [] + [x] + [y] + [z] == MEMORY_RUN && [] + [x] + [z] == [x, z];
    assert Only(MEMORY_RUN, 2) == [x, z];
  }

  lemma {:induction false} ChargeUntil(first: int, t: Time)
    requires 10 <= t
    ensures RecordOf(Flush(HandleAll(NewSession(first), [EnterMsg(1, 8, 10), OtherMsg(t)])).ctx, 1).localTime == t - 10
  {
    var ms, s0 := [EnterMsg(1, 8, 10), OtherMsg(t)], NewSession(first);
    assert ms[..1] == [EnterMsg(1, 8, 10)] && ms[..1][..0] == [];
    assert HandleAll(s0, []) == s0;
    assert HandleAll(s0, ms[..1]) == Handle(s0, ms[0]);
    var s := HandleAll(s0, ms);
    assert s == Handle(Handle(s0, ms[0]), ms[1]);
    assert s.ctx == EnterContext(EMPTY, 1, 8, 10) && s.last == t;
    EnterRecord(EMPTY, 1, 8, 10, 1);
    ExitRecord(s.ctx, 1, t, 1);
    assert Flush(FlushOne(s)) == FlushOne(s);
  }

  lemma {:induction false} RunOrdered()
    ensures OrderedTimes(MEMORY_RUN)
  {
    var xs := MEMORY_RUN;
    OrderedMore([], xs[0]);
    OrderedMore([xs[0]], xs[1]);
    OrderedMore([xs[0], xs[1]], xs[2]);
    assert [] + [xs[0]] == [xs[0]] && [xs[0]] + [xs[1]] == [xs[0], xs[1]] && [xs[0], xs[1]] + [xs[2]] == xs;
    assert [xs[0], xs[1]][..1] == [xs[0]] && [xs[0]][..0] == [];
  }

  /** The message of process 1 charges f of process 2 with 90, which on its own would have got nothing. */
  lemma {:induction false} OthersAreCharged(first: int, v: Time)
    ensures OrderedTimes(MEMORY_RUN)
    ensures RecordOf(Flush(Mixed(first, v, MEMORY_RUN, 2)).ctx, 1).localTime == 90
    ensures RecordOf(Flush(Alone(first, v, MEMORY_RUN, 2)).ctx, 1).localTime == 0
  {
    RunOrdered();
    RunMessages(v);
    ChargeUntil(first, 100);
    ChargeUntil(first, 10);
  }
}
