/** What the profile of each sender says when the manager ends (src/fcmanager/main.c:102-268), in terms of
    the messages that it has sent: the functions in its table, their calls, its arcs and its times. */
module Profiles {
  import opened Accounting
  import opened Manager
  import opened Dispatch
  import opened Packets
  import opened Streams
  import opened Maps
  import A = Arcs

  // ---------------------------------------------------------------- what a sender has sent

  /** Calls of f, by the sender. */
  function CallsOf(xs: seq<Sent>, id: int, f: int): nat {
    if xs == [] then 0 else
    var x := xs[|xs| - 1];
    CallsOf(xs[..|xs| - 1], id, f) + if x.id == id && x.p.EnterPacket? && x.p.f == f then 1 else 0
  }

  /** Calls with a key of the set. */
  function CallsWith(xs: seq<Sent>, id: int, keys: int -> bool): nat {
    if xs == [] then 0 else
    var x := xs[|xs| - 1];
    CallsWith(xs[..|xs| - 1], id, keys) +
    if x.id == id && x.p.EnterPacket? && A.Recorded(x.p.from, x.p.f, keys) then 1 else 0
  }

  /** Returns with a key of the set. */
  function ReturnsWith(xs: seq<Sent>, id: int, keys: int -> bool): nat {
    if xs == [] then 0 else
    var x := xs[|xs| - 1];
    ReturnsWith(xs[..|xs| - 1], id, keys) +
    if x.id == id && x.p.ExitPacket? && A.Recorded(x.p.from, x.p.f, keys) then 1 else 0
  }

  /** The events that the sender reports, at the times that it reports. */
  function Reported(xs: seq<Sent>, id: int): seq<Event> {
    if xs == [] then [] else
    var before, x := Reported(xs[..|xs| - 1], id), xs[|xs| - 1];
    if x.id == id && x.p.EnterPacket? then before + [Enter(x.p.f, x.p.from, x.p.time)]
    else if x.id == id && x.p.ExitPacket? && x.p.f != NULL then before + [Exit(x.p.f, x.p.time)]
    else before
  }

  /** The calls that the sender is inside of. */
  function Inside(xs: seq<Sent>, id: int): seq<Frame> {
    StackAfter(Reported(xs, id))
  }

  /** Each return of the sender names the function on top of its stack and the site of that call. */
  predicate Nested(xs: seq<Sent>, id: int) {
    xs == [] ||
    var most, x := xs[..|xs| - 1], xs[|xs| - 1];
    && Nested(most, id)
    && (x.id == id && x.p.ExitPacket? && x.p.f != NULL ==>
          var stack := Inside(most, id);
          stack != [] && Top(stack).symbol == x.p.f && Top(stack).site == x.p.from)
  }

  /** The message is one that sets the last time of the context of the sender. */
  predicate SetsLast(x: Sent, id: int) {
    x.id == id && !x.p.CreatedPacket? && !x.p.QuitPacket?
  }

  /** The position of the last one, or -1. */
  function LastSet(xs: seq<Sent>, id: int): (k: int)
    ensures -1 <= k < |xs|
  {
    if xs == [] then -1 else if SetsLast(xs[|xs| - 1], id) then |xs| - 1 else LastSet(xs[..|xs| - 1], id)
  }

  // ---------------------------------------------------------------- the messages as they are read

  lemma {:induction false} MessagesMore(v: Time, xs: seq<Sent>, id: int)
    requires xs != []
    ensures var x, ms := xs[|xs| - 1], Messages(v, xs[..|xs| - 1], id);
      Messages(v, xs, id) == if From(x, id) then ms + [Read(x, TimeAfter(v, xs)).m] else ms
  {
  }

  lemma {:induction false} EventsAreReported(v: Time, xs: seq<Sent>, id: int)
    ensures Events(Messages(v, xs, id)) == Reported(xs, id)
  {
    if xs != [] {
      EventsAreReported(v, xs[..|xs| - 1], id);
      MessagesMore(v, xs, id);
      var ms := Messages(v, xs[..|xs| - 1], id);
      if From(xs[|xs| - 1], id) {
        assert (ms + [Read(xs[|xs| - 1], TimeAfter(v, xs)).m])[..|ms|] == ms;
      }
    }
  }

  lemma {:induction false} ReturnsAreSent(v: Time, xs: seq<Sent>, id: int, keys: int -> bool)
    ensures A.Returns(Messages(v, xs, id), keys) == ReturnsWith(xs, id, keys)
  {
    if xs != [] {
      ReturnsAreSent(v, xs[..|xs| - 1], id, keys);
      MessagesMore(v, xs, id);
      var ms := Messages(v, xs[..|xs| - 1], id);
      if From(xs[|xs| - 1], id) {
        assert (ms + [Read(xs[|xs| - 1], TimeAfter(v, xs)).m])[..|ms|] == ms;
      }
    }
  }

  lemma {:induction false} CallsAreReported(xs: seq<Sent>, id: int, f: int)
    ensures Enters(Reported(xs, id), f) == CallsOf(xs, id, f)
  {
    if xs != [] {
      var before, x := Reported(xs[..|xs| - 1], id), xs[|xs| - 1];
      CallsAreReported(xs[..|xs| - 1], id, f);
      if x.id == id && x.p.EnterPacket? {
        EntersMore(before, Enter(x.p.f, x.p.from, x.p.time), f);
      } else if x.id == id && x.p.ExitPacket? && x.p.f != NULL {
        EntersMore(before, Exit(x.p.f, x.p.time), f);
      }
    }
  }

  lemma {:induction false} EntersMore(es: seq<Event>, e: Event, f: int)
    ensures Enters(es + [e], f) == Enters(es, f) + if e.Enter? && e.symbol == f then 1 else 0
  {
    assert (es + [e])[..|es|] == es;
  }

  /** Nested calls either have returned or are on the stack. */
  lemma {:induction false} CallsReturnOrStay(xs: seq<Sent>, id: int, keys: int -> bool)
    requires Nested(xs, id)
    ensures CallsWith(xs, id, keys) == ReturnsWith(xs, id, keys) + A.Frames(Inside(xs, id), keys)
  {
    if xs != [] {
      var most := xs[..|xs| - 1];
      CallsReturnOrStay(most, id, keys);
      var before, after := Reported(most, id), Reported(xs, id);
      if after != before {
        assert after[..|before|] == before;
      }
      if after != before && after[|before|].Enter? {
        assert Inside(xs, id)[..|Inside(most, id)|] == Inside(most, id);
      }
    }
  }

  // ---------------------------------------------------------------- the flushed profile

  lemma {:induction false} FlushKeepsRecords(s: Session, f: int)
    requires StackKnown(s.ctx)
    ensures f in Flush(s).ctx.functions <==> f in s.ctx.functions
    ensures RecordOf(Flush(s).ctx, f).calls == RecordOf(s.ctx, f).calls
    decreases |s.ctx.stack|
  {
    if s.ctx.stack != [] {
      FlushKeepsRecords(FlushOne(s), f);
    }
  }

  /** Every arc in the table has been counted, and has a key that the table takes. */
  predicate Counted(arcs: map<int, int>) {
    forall k :: k in arcs ==> arcs[k] > 0 && k != 0
  }

  lemma {:induction false} MessagesCounted(first: int, ms: seq<Message>)
    ensures Counted(HandleAll(NewSession(first), ms).arcs)
  {
    if ms != [] {
      MessagesCounted(first, ms[..|ms| - 1]);
    }
  }

  lemma {:induction false} FlushCounted(s: Session)
    requires StackKnown(s.ctx) && Counted(s.arcs)
    ensures Counted(Flush(s).arcs)
    decreases |s.ctx.stack|
  {
    if s.ctx.stack != [] {
      FlushCounted(FlushOne(s));
    }
  }

  /** The one key. */
  function JustOne(k: int): int -> bool {
    j => j == k
  }

  lemma {:induction false} ArcIsCounted(arcs: map<int, int>, k: int, n: int)
    requires Counted(arcs) && A.Count(arcs, JustOne(k)) == n
    ensures (k in arcs <==> n > 0) && (k in arcs ==> arcs[k] == n)
  {
    A.CountOne(arcs, k, JustOne(k));
  }

  /** What a flushed session says of the messages of its sender: the functions in its table are those that
      the sender has called, with the number of calls; its arcs, over any set of keys, count the returns
      and the calls that have not returned, and so all calls, if they are nested; and an arc is in the table
      only if there is something to count. */
  ghost predicate Tells(s: Session, xs: seq<Sent>, id: int) {
    && (forall f :: f in s.ctx.functions <==> CallsOf(xs, id, f) > 0)
    && (forall f :: f in s.ctx.functions ==> s.ctx.functions[f].calls == CallsOf(xs, id, f))
    && (forall keys :: A.Count(s.arcs, keys) == ReturnsWith(xs, id, keys) + A.Frames(Inside(xs, id), keys))
    && (Nested(xs, id) ==> forall keys :: A.Count(s.arcs, keys) == CallsWith(xs, id, keys))
    && forall k :: k in s.arcs <==> ReturnsWith(xs, id, JustOne(k)) + A.Frames(Inside(xs, id), JustOne(k)) > 0
  }

  lemma {:induction false} MixedTells(first: int, v: Time, xs: seq<Sent>, id: int)
    ensures Tells(Flush(Mixed(first, v, xs, id)), xs, id)
  {
    var ms, s := Messages(v, xs, id), Mixed(first, v, xs, id);
    var t := Flush(s);
    HandleIsRun(first, ms);
    EventsAreReported(v, xs, id);
    forall f
      ensures f in t.ctx.functions <==> CallsOf(xs, id, f) > 0
      ensures f in t.ctx.functions ==> t.ctx.functions[f].calls == CallsOf(xs, id, f)
    {
      FlushKeepsRecords(s, f);
      RecordsAreOfCalls(Events(ms), f);
      CallsAreReported(xs, id, f);
    }
    forall keys
      ensures A.Count(t.arcs, keys) == ReturnsWith(xs, id, keys) + A.Frames(Inside(xs, id), keys)
      ensures Nested(xs, id) ==> A.Count(t.arcs, keys) == CallsWith(xs, id, keys)
    {
      A.ArcsAfterFlush(first, ms, keys);
      ReturnsAreSent(v, xs, id, keys);
      if Nested(xs, id) {
        CallsReturnOrStay(xs, id, keys);
      }
    }
    MessagesCounted(first, ms);
    FlushCounted(s);
    forall k
      ensures k in t.arcs <==> ReturnsWith(xs, id, JustOne(k)) + A.Frames(Inside(xs, id), JustOne(k)) > 0
    {
      ArcIsCounted(t.arcs, k, ReturnsWith(xs, id, JustOne(k)) + A.Frames(Inside(xs, id), JustOne(k)));
    }
  }

  /** At the end of every stream, whatever the mixture of senders and the times, this holds of every context
      of the manager. */
  lemma {:induction false} ContextsTell(id: int, start: int, v: Time, xs: seq<Sent>, i: nat)
    requires i < |DeliverAll(History(id, start, v, xs))|
    ensures var e := FlushAll(DeliverAll(History(id, start, v, xs)))[i]; Tells(e.s, xs, e.id)
  {
    var h := History(id, start, v, xs);
    var x := DeliverAll(h)[i].id;
    ContextsAreMixed(id, start, v, xs, i);
    MixedTells(FirstTime(h, x), v, xs, x);
  }

  // ---------------------------------------------------------------- the records

  /** The last time of a context is what the time variable was at the last message that set it. */
  lemma {:induction false} LastIsSet(first: int, v: Time, xs: seq<Sent>, id: int)
    ensures var k := LastSet(xs, id);
      Mixed(first, v, xs, id).last == if k >= 0 then TimeAfter(v, xs[..k + 1]) else NewSession(first).last
  {
    if xs != [] {
      var most := xs[..|xs| - 1];
      LastIsSet(first, v, most, id);
      LastMore(first, v, xs, id);
      var k := LastSet(xs, id);
      if k == |xs| - 1 {
        assert xs[..k + 1] == xs;
      } else {
        assert k == LastSet(most, id) && xs[..k + 1] == most[..k + 1];
      }
    }
  }

  /** Only calls of functions, none of NULL. */
  predicate CallsFunctions(xs: seq<Sent>, id: int) {
    forall k :: 0 <= k < |xs| && xs[k].id == id && xs[k].p.EnterPacket? ==> xs[k].p.f != NULL
  }

  lemma {:induction false} MixedNamed(first: int, v: Time, xs: seq<Sent>, id: int)
    requires CallsFunctions(xs, id)
    ensures Named(Mixed(first, v, xs, id).ctx.stack)
  {
    if xs != [] {
      var x, s := xs[|xs| - 1], Mixed(first, v, xs[..|xs| - 1], id);
      MixedNamed(first, v, xs[..|xs| - 1], id);
      MixedMore(first, v, xs, id);
      if From(x, id) {
        HandleNamedOne(s, Read(x, TimeAfter(v, xs)).m);
      }
    }
  }

  /** The records of the flushed context are those of the events that its sender has reported, followed by
      the exits of the calls that it was inside of, at the last time of the context. */
  lemma {:induction false} FlushedIsReported(first: int, v: Time, xs: seq<Sent>, id: int)
    requires CallsFunctions(xs, id)
    ensures var s := Mixed(first, v, xs, id);
      Flush(s).ctx == Run(Reported(xs, id) + FlushEvents(Inside(xs, id), s.last))
  {
    var ms, s := Messages(v, xs, id), Mixed(first, v, xs, id);
    HandleIsRun(first, ms);
    EventsAreReported(v, xs, id);
    StackSame(Events(ms));
    MixedNamed(first, v, xs, id);
    FlushIsRun(s);
    RunMore(Events(ms), FlushEvents(s.ctx.stack, s.last));
  }

  lemma {:induction false} FlushKeepsLast(s: Session)
    requires StackKnown(s.ctx)
    ensures Flush(s).last == s.last
    decreases |s.ctx.stack|
  {
    if s.ctx.stack != [] {
      FlushKeepsLast(FlushOne(s));
    }
  }

  /** In an ordered stream the local times of a profile sum up to the time that its sender reports to have been
      inside some function, and if it still is inside one, the time from its last call or return to the last
      time of the context. */
  lemma {:induction false} TimesAreReported(first: int, v: Time, xs: seq<Sent>, id: int)
    requires OrderedTimes(xs)
    ensures var t, es := Flush(Mixed(first, v, xs, id)), Reported(xs, id);
      Total(LocalTimes(t.ctx)) == BusyTime(es) + if Inside(xs, id) == [] then 0 else t.last - Clock(es)
  {
    var ms, s, es := Messages(0, xs, id), Mixed(first, 0, xs, id), Reported(xs, id);
    FirstTimeUnused(first, first, v, 0, xs, id);
    MessagesTimed(xs, id);
    FlushedAccounts(first, ms);
    HandleIsRun(first, ms);
    EventsAreReported(0, xs, id);
    EventsAreReported(v, xs, id);
    StackSame(es);
    FlushBusy(es, s.last);
    HandleIsRun(first, Messages(v, xs, id));
    FlushKeepsLast(s);
    FlushKeepsLast(Mixed(first, v, xs, id));
    if Inside(xs, id) != [] {
      StackMeansEntered(first, v, xs, id);
      LastIsRead(first, first, v, 0, xs, id);
    }
  }

  // ---------------------------------------------------------------- which contexts there are

  /** The one that a message makes a context for, if there is none: a new process or thread, or else the
      sender. */
  function Subject(x: Sent): int {
    if x.p.CreatedPacket? then x.p.child else x.id
  }

  lemma {:induction false} HistoryOf(id: int, start: int, v: Time, xs: seq<Sent>)
    ensures var h := History(id, start, v, xs);
      |h| == |xs| + 1 && h[0].id == id && forall k :: 0 <= k < |xs| ==> h[k + 1].id == Subject(xs[k])
  {
    if xs != [] {
      HistoryOf(id, start, v, xs[..|xs| - 1]);
    }
  }

  /** The time at which the context of a process or thread is made: that of the start for the first process, and
      else the time variable at the first message about it. */
  function MadeAt(id: int, start: int, v: Time, xs: seq<Sent>, z: int): int {
    if z == id then start
    else if xs == [] then 0
    else if SomeAbout(xs[..|xs| - 1], z) || Subject(xs[|xs| - 1]) != z then MadeAt(id, start, v, xs[..|xs| - 1], z)
    else TimeAfter(v, xs)
  }

  lemma {:induction false} FirstTimeIs(id: int, start: int, v: Time, xs: seq<Sent>, z: int)
    ensures FirstTime(History(id, start, v, xs), z) == MadeAt(id, start, v, xs, z)
  {
    var h := History(id, start, v, xs);
    if xs == [] {
      assert h[..0] == [] && !Heard([], z) && FirstTime([], z) == 0;
    } else {
      var most := History(id, start, v, xs[..|xs| - 1]);
      assert h[..|h| - 1] == most;
      FirstTimeIs(id, start, v, xs[..|xs| - 1], z);
      HeardIs(id, start, v, xs[..|xs| - 1], z);
      HistoryOf(id, start, v, xs);
    }
  }

  /** What the last time of the context of z should be: that of the time variable at the last message of z that
      set it, or the low word of the time at which the context was made. */
  function LastTime(id: int, start: int, v: Time, xs: seq<Sent>, z: int): int {
    var k := LastSet(xs, z);
    if k >= 0 then TimeAfter(v, xs[..k + 1]) else MadeAt(id, start, v, xs, z) % U32_RANGE
  }

  lemma {:induction false} LastIsLast(id: int, start: int, v: Time, xs: seq<Sent>, z: int)
    ensures Mixed(FirstTime(History(id, start, v, xs), z), v, xs, z).last == LastTime(id, start, v, xs, z)
  {
    FirstTimeIs(id, start, v, xs, z);
    LastIsSet(FirstTime(History(id, start, v, xs), z), v, xs, z);
  }

  /** It is, before the flush, which does not change it. */
  lemma {:induction false} ContextsLast(id: int, start: int, v: Time, xs: seq<Sent>, i: nat)
    requires i < |DeliverAll(History(id, start, v, xs))|
    ensures var e := DeliverAll(History(id, start, v, xs))[i]; e.s.last == LastTime(id, start, v, xs, e.id)
  {
    ContextsAreMixed(id, start, v, xs, i);
    LastIsLast(id, start, v, xs, DeliverAll(History(id, start, v, xs))[i].id);
  }

  /** x is the first process, or was heard of before y. */
  predicate Sooner(id: int, xs: seq<Sent>, x: int, y: int) {
    y != id && (x == id || exists k :: 0 <= k < |xs| && Subject(xs[k]) == x && NoneAbout(xs[..k + 1], y))
  }

  predicate NoneAbout(xs: seq<Sent>, id: int) {
    forall k :: 0 <= k < |xs| ==> Subject(xs[k]) != id
  }

  predicate SomeAbout(xs: seq<Sent>, id: int) {
    exists k :: 0 <= k < |xs| && Subject(xs[k]) == id
  }

  /** There is one context for the first process and for each process or thread that has sent a message or
      whose creation has been reported, in the order in which they were heard of. */
  ghost predicate Lists(cs: seq<Entry>, id: int, xs: seq<Sent>) {
    && Distinct(cs)
    && (forall z :: IndexOf(cs, z) < |cs| <==> z == id || SomeAbout(xs, z))
    && forall i, j :: 0 <= i < j < |cs| ==> Sooner(id, xs, cs[i].id, cs[j].id)
  }

  lemma {:induction false} ContextsAreListed(id: int, start: int, v: Time, xs: seq<Sent>)
    ensures Lists(DeliverAll(History(id, start, v, xs)), id, xs)
  {
    var h := History(id, start, v, xs);
    var cs := DeliverAll(h);
    ContextsAreIsolated(h);
    HistoryOf(id, start, v, xs);
    forall z ensures IndexOf(cs, z) < |cs| <==> z == id || SomeAbout(xs, z) {
      HeardIs(id, start, v, xs, z);
      if IndexOf(cs, z) < |cs| {
        assert OwnHistory(h, cs[IndexOf(cs, z)]);
      }
    }
    forall i, j | 0 <= i < j < |cs| ensures Sooner(id, xs, cs[i].id, cs[j].id) {
      ContextsInOrder(h, i, j);
      SoonerIs(id, start, v, xs, cs[i].id, cs[j].id);
    }
  }

  lemma {:induction false} HeardIs(id: int, start: int, v: Time, xs: seq<Sent>, z: int)
    ensures Heard(History(id, start, v, xs), z) <==> z == id || SomeAbout(xs, z)
  {
    var h := History(id, start, v, xs);
    HistoryOf(id, start, v, xs);
    if k :| 0 <= k < |h| && h[k].id == z && k > 0 {
      assert Subject(xs[k - 1]) == z;
    }
    if k :| 0 <= k < |xs| && Subject(xs[k]) == z {
      assert h[k + 1].id == z;
    }
  }

  lemma {:induction false} SoonerIs(id: int, start: int, v: Time, xs: seq<Sent>, x: int, y: int)
    requires HeardBefore(History(id, start, v, xs), x, y)
    ensures Sooner(id, xs, x, y)
  {
    var h := History(id, start, v, xs);
    HistoryOf(id, start, v, xs);
    var k :| 0 <= k < |h| && h[k].id == x && NotAmong(h[..k + 1], y);
    assert h[..k + 1][0].id == id;
    if k > 0 {
      forall m | 0 <= m < |xs[..k]| ensures Subject(xs[..k][m]) != y {
        assert h[..k + 1][m + 1].id == Subject(xs[m]);
      }
      assert Subject(xs[k - 1]) == x && NoneAbout(xs[..k - 1 + 1], y);
    }
  }

  /** What the manager ends with: these contexts, and each tells of the messages of its sender. */
  lemma {:induction false} ManagerTells(id: int, start: int, v: Time, xs: seq<Sent>)
    ensures var es := FlushAll(DeliverAll(History(id, start, v, xs)));
      Lists(es, id, xs) && forall e :: e in es ==> Tells(e.s, xs, e.id)
  {
    var cs := DeliverAll(History(id, start, v, xs));
    var es := FlushAll(cs);
    ContextsAreListed(id, start, v, xs);
    forall z ensures IndexOf(es, z) == IndexOf(cs, z) {
      IndexIs(es, z, IndexOf(cs, z));
    }
    forall e | e in es ensures Tells(e.s, xs, e.id) {
      var i :| 0 <= i < |es| && es[i] == e;
      ContextsTell(id, start, v, xs, i);
    }
  }
}
