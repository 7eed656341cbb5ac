/** The manager's message loop and its final flush (src/fcmanager/main.c:109-268) for one context, with
    the arcs of the call graph (src/fcmanager/fc_graph.c:36-66). */
module Manager {
  import opened Accounting
  import C = Conservation
  import opened Maps

  const NULL := 0
  const U32_RANGE := 0x1_0000_0000

  /** Messages of a context, as the loop has them when they have been read: `time` is its time variable.
      `OtherMsg` stands for those of which it uses no more; most of them carry no time of their own, and
      find in the variable what an earlier message of any sender has left there (see Packets). */
  datatype Message =
    | EnterMsg(f: int, from: int, time: int)
    | ExitMsg(f: int, from: int, time: int)
    | QuitMsg
    | OtherMsg(time: int)

  /** FC_Context: the function table and the stack, the arc counts by key, and the last time. */
  datatype Session = Session(ctx: Context, arcs: map<int, int>, last: int)

  function NewSession(first: int): Session {
    Session(EMPTY, map[], first % U32_RANGE)
  }

  /** The low words of both addresses, packed into one key. */
  function Key(from: int, to: int): int {
    (from % U32_RANGE) * U32_RANGE + to % U32_RANGE
  }

  /** fc_graph_add: calls from nowhere are not counted, nor is the key 0, which the table ignores. */
  function AddArc(arcs: map<int, int>, from: int, to: int): map<int, int> {
    var k := Key(from, to);
    if from == NULL || k == 0 then arcs
    else if k in arcs then arcs[k := arcs[k] + 1]
    else arcs[k := 1]
  }

  /** One message. */
  function Handle(s: Session, m: Message): (t: Session)
    requires StackKnown(s.ctx)
    ensures StackKnown(t.ctx)
  {
    match m
    case QuitMsg => s
    case OtherMsg(time) => s.(last := time)
    case EnterMsg(f, from, time) => s.(last := time, ctx := EnterContext(s.ctx, f, from, time))
    case ExitMsg(f, from, time) =>
      if f == NULL then s.(last := time)
      else Session(ExitContext(s.ctx, f, time), AddArc(s.arcs, from, f), time)
  }

  /** The flush of one frame: its function exits at the last time of the context. */
  function FlushOne(s: Session): (t: Session)
    requires StackKnown(s.ctx) && s.ctx.stack != []
    ensures StackKnown(t.ctx) && |t.ctx.stack| == |s.ctx.stack| - 1
  {
    var top := Top(s.ctx.stack);
    if top.symbol != NULL then
      s.(ctx := ExitContext(s.ctx, top.symbol, s.last), arcs := AddArc(s.arcs, top.site, top.symbol))
    else s.(ctx := s.ctx.(stack := s.ctx.stack[..|s.ctx.stack| - 1]))
  }

  function Flush(s: Session): (t: Session)
    requires StackKnown(s.ctx)
    ensures t.ctx.stack == [] && StackKnown(t.ctx)
    decreases |s.ctx.stack|
  {
    if s.ctx.stack == [] then s else Flush(FlushOne(s))
  }

  function HandleAll(s: Session, ms: seq<Message>): (t: Session)
    requires StackKnown(s.ctx)
    ensures StackKnown(t.ctx)
  {
    if ms == [] then s else Handle(HandleAll(s, ms[..|ms| - 1]), ms[|ms| - 1])
  }

  // ---------------------------------------------------------------- the messages as events

  /** The enter and exit events that the messages carry. */
  function Events(ms: seq<Message>): seq<Event> {
    if ms == [] then [] else
    var before := Events(ms[..|ms| - 1]);
    match ms[|ms| - 1]
    case EnterMsg(f, from, time) => before + [Enter(f, from, time)]
    case ExitMsg(f, _, time) => if f == NULL then before else before + [Exit(f, time)]
    case _ => before
  }

  /** The exits that the flush of the stack adds. */
  function FlushEvents(stack: seq<Frame>, time: int): seq<Event> {
    if stack == [] then [] else [Exit(Top(stack).symbol, time)] + FlushEvents(stack[..|stack| - 1], time)
  }

  predicate HasTime(m: Message) {
    !m.QuitMsg?
  }

  /** The messages of a context: functions are not NULL, and times do not decrease. */
  predicate WellTimed(ms: seq<Message>) {
    && (forall i :: 0 <= i < |ms| ==> ms[i].EnterMsg? ==> ms[i].f != NULL)
    && (forall i :: 0 <= i < |ms| && HasTime(ms[i]) ==> 0 <= ms[i].time <= U64_MAX)
    && forall i, j :: 0 <= i < j < |ms| && HasTime(ms[i]) && HasTime(ms[j]) ==> ms[i].time <= ms[j].time
  }

  /** Every event is at a time at most t. */
  predicate Until(es: seq<Event>, t: int) {
    forall i :: 0 <= i < |es| ==> es[i].time <= t
  }

  lemma {:induction false} WellTimedPrefix(ms: seq<Message>)
    requires WellTimed(ms) && ms != []
    ensures WellTimed(ms[..|ms| - 1])
  {
  }

  lemma {:induction false} EventsUntil(ms: seq<Message>, t: int)
    requires WellTimed(ms) && forall i :: 0 <= i < |ms| && HasTime(ms[i]) ==> ms[i].time <= t
    ensures Until(Events(ms), t)
  {
    if ms != [] {
      WellTimedPrefix(ms);
      EventsUntil(ms[..|ms| - 1], t);
    }
  }

  lemma {:induction false} EventsTimed(ms: seq<Message>)
    requires WellTimed(ms)
    ensures Timed(Events(ms))
  {
    if ms != [] {
      WellTimedPrefix(ms);
      EventsTimed(ms[..|ms| - 1]);
      if HasTime(ms[|ms| - 1]) {
        EventsUntil(ms[..|ms| - 1], ms[|ms| - 1].time);
      }
    }
  }

  /** The last time of the context is that of the last message that sets it. */
  lemma {:induction false} LastIsLatest(s: Session, ms: seq<Message>)
    requires WellTimed(ms) && StackKnown(s.ctx) && 0 <= s.last <= U64_MAX
    ensures forall i :: 0 <= i < |ms| && HasTime(ms[i]) ==> ms[i].time <= HandleAll(s, ms).last
    ensures 0 <= HandleAll(s, ms).last <= U64_MAX
  {
    if ms != [] {
      WellTimedPrefix(ms);
      LastIsLatest(s, ms[..|ms| - 1]);
    }
  }

  lemma {:induction false} HandleIsRun(first: int, ms: seq<Message>)
    ensures HandleAll(NewSession(first), ms).ctx == Run(Events(ms))
  {
    if ms != [] {
      HandleIsRun(first, ms[..|ms| - 1]);
    }
  }

  predicate Named(stack: seq<Frame>) {
    forall i :: 0 <= i < |stack| ==> stack[i].symbol != NULL
  }

  lemma {:induction false} HandleNamedOne(s: Session, m: Message)
    requires StackKnown(s.ctx) && Named(s.ctx.stack) && (m.EnterMsg? ==> m.f != NULL)
    ensures Named(Handle(s, m).ctx.stack)
  {
  }

  lemma {:induction false} HandleNamed(s: Session, ms: seq<Message>)
    requires WellTimed(ms) && StackKnown(s.ctx) && Named(s.ctx.stack)
    ensures Named(HandleAll(s, ms).ctx.stack)
  {
    if ms != [] {
      WellTimedPrefix(ms);
      HandleNamed(s, ms[..|ms| - 1]);
      HandleNamedOne(HandleAll(s, ms[..|ms| - 1]), ms[|ms| - 1]);
    }
  }

  function ApplyAll(c: Context, es: seq<Event>): (d: Context)
    requires StackKnown(c)
    ensures StackKnown(d)
    decreases |es|
  {
    if es == [] then c else ApplyAll(Apply(c, es[0]), es[1..])
  }

  lemma {:induction false} RunMore(es: seq<Event>, fs: seq<Event>)
    ensures Run(es + fs) == ApplyAll(Run(es), fs)
    decreases |fs|
  {
    if fs == [] {
      assert es + fs == es;
    } else {
      assert (es + [fs[0]])[..|es|] == es;
      assert es + fs == es + [fs[0]] + fs[1..];
      RunMore(es + [fs[0]], fs[1..]);
    }
  }

  lemma {:induction false} FlushOneIsExit(s: Session)
    requires StackKnown(s.ctx) && s.ctx.stack != [] && Named(s.ctx.stack)
    ensures var t := FlushOne(s);
      && t.ctx == Apply(s.ctx, Exit(Top(s.ctx.stack).symbol, s.last))
      && t.ctx.stack == s.ctx.stack[..|s.ctx.stack| - 1] && Named(t.ctx.stack) && t.last == s.last
  {
    assert s.ctx.stack[|s.ctx.stack| - 1].symbol != NULL;
  }

  /** The flush is a sequence of matching exits, at the last time. */
  lemma {:induction false} FlushIsRun(s: Session)
    requires StackKnown(s.ctx) && Named(s.ctx.stack)
    ensures Flush(s).ctx == ApplyAll(s.ctx, FlushEvents(s.ctx.stack, s.last))
    decreases |s.ctx.stack|
  {
    if s.ctx.stack != [] {
      FlushOneIsExit(s);
      FlushIsRun(FlushOne(s));
    }
  }

  lemma {:induction false} FlushTimes(stack: seq<Frame>, t: int)
    ensures forall i :: 0 <= i < |FlushEvents(stack, t)| ==> FlushEvents(stack, t)[i].time == t
  {
    if stack != [] {
      FlushTimes(stack[..|stack| - 1], t);
    }
  }

  /** A frame without a function is dropped, and nothing exits. */
  lemma {:induction false} FlushDropsUnnamed(s: Session)
    requires StackKnown(s.ctx) && s.ctx.stack != [] && Top(s.ctx.stack).symbol == NULL
    ensures Flush(s) == Flush(s.(ctx := s.ctx.(stack := s.ctx.stack[..|s.ctx.stack| - 1])))
  {
  }

  /** What a context has seen when it has been flushed. */
  function Seen(first: int, ms: seq<Message>): seq<Event> {
    var s := HandleAll(NewSession(first), ms);
    Events(ms) + FlushEvents(s.ctx.stack, s.last)
  }

  lemma {:induction false} FlushedIsRun(first: int, ms: seq<Message>)
    requires WellTimed(ms)
    ensures Flush(HandleAll(NewSession(first), ms)).ctx == Run(Seen(first, ms))
  {
    var s := HandleAll(NewSession(first), ms);
    HandleIsRun(first, ms);
    HandleNamed(NewSession(first), ms);
    FlushIsRun(s);
    RunMore(Events(ms), FlushEvents(s.ctx.stack, s.last));
  }

  lemma {:induction false} SeenTimed(first: int, ms: seq<Message>)
    requires WellTimed(ms)
    ensures Timed(Seen(first, ms))
  {
    var s := HandleAll(NewSession(first), ms);
    EventsTimed(ms);
    LastIsLatest(NewSession(first), ms);
    EventsUntil(ms, s.last);
    FlushTimes(s.ctx.stack, s.last);
  }

  /** After the messages and the flush of the stack: the stack is empty, the records are those of a
      timed sequence of events, every time is final, and the local times of all functions sum up to
      the time during which something was on the stack. */
  lemma {:induction false} FlushedAccounts(first: int, ms: seq<Message>)
    requires WellTimed(ms)
    ensures var c := Flush(HandleAll(NewSession(first), ms)).ctx;
      && c.stack == [] && c == Run(Seen(first, ms)) && Timed(Seen(first, ms))
      && Total(LocalTimes(c)) == BusyTime(Seen(first, ms))
  {
    FlushedIsRun(first, ms);
    SeenTimed(first, ms);
    var es := Seen(first, ms);
    var c := Run(es);
    C.TimeIsConserved(es);
    forall f | f in c.functions ensures Charge(c.functions[f]) == c.functions[f].localTime {
      C.OffStack(es, f);
    }
    SameMap(C.Charges(c), LocalTimes(c));
  }

  function LocalTimes(c: Context): map<int, int> {
    map f | f in c.functions :: c.functions[f].localTime
  }
}
