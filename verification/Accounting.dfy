/** Time accounting over a call stack (src/fcmanager/fc_functions.c): what one enter or exit event
    does to the function records, and what the records mean. */
module Accounting {

  /** Times are unsigned 64-bit numbers. */
  const U64_MAX := 0xFFFF_FFFF_FFFF_FFFF
  const U64_RANGE := U64_MAX + 1

  function Add64(a: int, b: int): (r: int)
    ensures 0 <= a + b <= U64_MAX ==> r == a + b
  {
    (a + b) % U64_RANGE
  }

  function Sub64(a: int, b: int): (r: int)
    ensures 0 <= a - b <= U64_MAX ==> r == a - b
  {
    (a - b) % U64_RANGE
  }

  /** Sums and differences that do not fit wrap around. */
  lemma {:induction false} WrapAround(a: int, b: int) returns (j: int, k: int)
    ensures 0 <= Add64(a, b) <= U64_MAX && Add64(a, b) == a + b - j * U64_RANGE
    ensures 0 <= Sub64(a, b) <= U64_MAX && Sub64(a, b) == a - b - k * U64_RANGE
  {
    j, k := (a + b) / U64_RANGE, (a - b) / U64_RANGE;
  }

  /** FC_Function, without its symbol, by which the table is indexed. */
  datatype Record = Record(calls: int, localTime: int, totalTime: int, lastTime: int, maxTime: int, minTime: int,
                           maxLocal: int, minLocal: int, tempLocal: int, recursive: int)

  const NEW_RECORD := Record(0, 0, 0, 0, 0, U64_MAX, 0, U64_MAX, 0, 0)

  datatype Frame = Frame(symbol: int, site: int, time: int)

  /** The function table and the call stack of a context; the top of the stack is its last element. */
  datatype Context = Context(functions: map<int, Record>, stack: seq<Frame>)

  const EMPTY := Context(map[], [])

  datatype Event = Enter(symbol: int, site: int, time: int) | Exit(symbol: int, time: int)

  function Top(stack: seq<Frame>): Frame
    requires stack != []
  {
    stack[|stack| - 1]
  }

  predicate StackKnown(c: Context) {
    forall i :: 0 <= i < |c.stack| ==> c.stack[i].symbol in c.functions
  }

  /** The record of the function, made if there is none; a new presence starts with no local time. */
  function Prepared(fs: map<int, Record>, f: int): Record {
    var r := if f in fs then fs[f] else NEW_RECORD;
    if r.recursive == 0 then r.(tempLocal := 0) else r
  }

  /** The caller on top of the stack has run until now. */
  function ChargeCaller(fs: map<int, Record>, stack: seq<Frame>, time: int): (r: map<int, Record>)
    requires forall i :: 0 <= i < |stack| ==> stack[i].symbol in fs
    ensures r.Keys == fs.Keys
  {
    if stack == [] then fs else
    var p := Top(stack).symbol;
    fs[p := fs[p].(tempLocal := Add64(fs[p].tempLocal, Sub64(time, fs[p].lastTime)))]
  }

  function EnterContext(c: Context, f: int, site: int, time: int): (d: Context)
    requires StackKnown(c)
    ensures StackKnown(d)
  {
    var fs := ChargeCaller(c.functions[f := Prepared(c.functions, f)], c.stack, time);
    var r := fs[f];
    Context(fs[f := r.(recursive := r.recursive + 1, calls := r.calls + 1, lastTime := time)],
            c.stack + [Frame(f, site, time)])
  }

  predicate Matches(c: Context, f: int) {
    c.stack != [] && Top(c.stack).symbol == f
  }

  /** What an accepted exit at `time` does to the record of the function that was entered at `entry`. */
  function Leave(r: Record, entry: int, time: int): Record {
    var delta := Sub64(time, entry);
    var temp := Add64(r.tempLocal, Sub64(time, r.lastTime));
    r.(tempLocal := temp,
       localTime := if r.recursive <= 1 then Add64(r.localTime, temp) else r.localTime,
       maxLocal := if temp > r.maxLocal then temp else r.maxLocal,
       minLocal := if temp < r.minLocal then temp else r.minLocal,
       maxTime := if delta > r.maxTime then delta else r.maxTime,
       minTime := if delta < r.minTime then delta else r.minTime,
       totalTime := if r.recursive <= 1 then Add64(r.totalTime, delta) else r.totalTime,
       recursive := r.recursive - 1)
  }

  /** An exit that does not match the top of the stack is ignored; otherwise the function leaves
      the stack and its caller runs again. */
  function ExitContext(c: Context, f: int, time: int): (d: Context)
    requires StackKnown(c)
    ensures StackKnown(d)
  {
    if !Matches(c, f) then c else
    var rest := c.stack[..|c.stack| - 1];
    var fs := c.functions[f := Leave(c.functions[f], Top(c.stack).time, time)];
    if rest == [] then Context(fs, rest) else
    var p := Top(rest).symbol;
    Context(fs[p := fs[p].(lastTime := time)], rest)
  }

  function Apply(c: Context, e: Event): (d: Context)
    requires StackKnown(c)
    ensures StackKnown(d)
  {
    match e
    case Enter(f, site, time) => EnterContext(c, f, site, time)
    case Exit(f, time) => ExitContext(c, f, time)
  }

  function Run(es: seq<Event>): (c: Context)
    ensures StackKnown(c)
  {
    if es == [] then EMPTY else Apply(Run(es[..|es| - 1]), es[|es| - 1])
  }

  // ---------------------------------------------------------------- what the records should say

  /** The times of the events do not decrease, and fit in 64 bits. */
  predicate Timed(es: seq<Event>) {
    && (forall i :: 0 <= i < |es| ==> 0 <= es[i].time <= U64_MAX)
    && forall i, j :: 0 <= i < j < |es| ==> es[i].time <= es[j].time
  }

  /** The call stack after the events, from the events alone. */
  function StackAfter(es: seq<Event>): seq<Frame> {
    if es == [] then [] else
    var before := StackAfter(es[..|es| - 1]);
    match es[|es| - 1]
    case Enter(f, site, time) => before + [Frame(f, site, time)]
    case Exit(f, _) => if before != [] && Top(before).symbol == f then before[..|before| - 1] else before
  }

  predicate Accepted(stack: seq<Frame>, e: Event) {
    e.Enter? || (stack != [] && Top(stack).symbol == e.symbol)
  }

  /** The time of the last accepted event. */
  function Clock(es: seq<Event>): int {
    if es == [] then 0 else
    var before, e := es[..|es| - 1], es[|es| - 1];
    if Accepted(StackAfter(before), e) then e.time else Clock(before)
  }

  /** The time that passes with the last event, if it is accepted. */
  function Gap(es: seq<Event>): int
    requires es != []
  {
    Clock(es) - Clock(es[..|es| - 1])
  }

  function Occurrences(stack: seq<Frame>, f: int): nat {
    if stack == [] then 0
    else Occurrences(stack[..|stack| - 1], f) + if Top(stack).symbol == f then 1 else 0
  }

  /** The entry time of the outermost frame of f. */
  function Outermost(stack: seq<Frame>, f: int): int
    requires Occurrences(stack, f) > 0
  {
    var rest := stack[..|stack| - 1];
    if Occurrences(rest, f) > 0 then Outermost(rest, f) else Top(stack).time
  }

  /** The time during which f was on top of the stack. */
  function SelfTime(es: seq<Event>, f: int): int {
    if es == [] then 0 else
    var stack := StackAfter(es[..|es| - 1]);
    SelfTime(es[..|es| - 1], f) + if stack != [] && Top(stack).symbol == f then Gap(es) else 0
  }

  /** The time during which f was on the stack. */
  function PresenceTime(es: seq<Event>, f: int): int {
    if es == [] then 0 else
    PresenceTime(es[..|es| - 1], f) + if Occurrences(StackAfter(es[..|es| - 1]), f) > 0 then Gap(es) else 0
  }

  /** The time during which the stack was not empty. */
  function BusyTime(es: seq<Event>): int {
    if es == [] then 0 else
    BusyTime(es[..|es| - 1]) + if StackAfter(es[..|es| - 1]) != [] then Gap(es) else 0
  }

  function Enters(es: seq<Event>, f: int): nat {
    if es == [] then 0
    else Enters(es[..|es| - 1], f) + if es[|es| - 1].Enter? && es[|es| - 1].symbol == f then 1 else 0
  }

  /** The last event ends an activation of f. */
  predicate EndsOne(es: seq<Event>, f: int) {
    es != [] && es[|es| - 1].Exit? && es[|es| - 1].symbol == f && Accepted(StackAfter(es[..|es| - 1]), es[|es| - 1])
  }

  /** How long the activation that the last event ends has lasted, nested calls included. */
  function Duration(es: seq<Event>, f: int): int
    requires EndsOne(es, f)
  {
    es[|es| - 1].time - Top(StackAfter(es[..|es| - 1])).time
  }

  function Completed(es: seq<Event>, f: int): nat {
    if es == [] then 0 else Completed(es[..|es| - 1], f) + if EndsOne(es, f) then 1 else 0
  }

  /** The longest completed activation of f, or 0. */
  function Longest(es: seq<Event>, f: int): int {
    if es == [] then 0 else
    var before := Longest(es[..|es| - 1], f);
    if EndsOne(es, f) && Duration(es, f) > before then Duration(es, f) else before
  }

  /** The shortest completed activation of f, or the largest time. */
  function Shortest(es: seq<Event>, f: int): int {
    if es == [] then U64_MAX else
    var before := Shortest(es[..|es| - 1], f);
    if EndsOne(es, f) && Duration(es, f) < before then Duration(es, f) else before
  }

  /** The time that f was on top of the stack before its present stay on the stack. */
  function SelfBefore(es: seq<Event>, f: int): int {
    if es == [] || Occurrences(StackAfter(es), f) == 0 then SelfTime(es, f) else SelfBefore(es[..|es| - 1], f)
  }

  /** For how long f was on top of the stack in the stay in which the last event ends an activation
      of it, from the beginning of that stay on. */
  function SelfOfStay(es: seq<Event>, f: int): int
    requires EndsOne(es, f)
  {
    SelfTime(es, f) - SelfBefore(es[..|es| - 1], f)
  }

  /** The largest self time of a stay at the end of an activation of f, or 0. */
  function LargestSelf(es: seq<Event>, f: int): int {
    if es == [] then 0 else
    var before := LargestSelf(es[..|es| - 1], f);
    if EndsOne(es, f) && SelfOfStay(es, f) > before then SelfOfStay(es, f) else before
  }

  /** The smallest one, or the largest time. */
  function SmallestSelf(es: seq<Event>, f: int): int {
    if es == [] then U64_MAX else
    var before := SmallestSelf(es[..|es| - 1], f);
    if EndsOne(es, f) && SelfOfStay(es, f) < before then SelfOfStay(es, f) else before
  }

  // ---------------------------------------------------------------- the invariant

  /** Local time not yet added to the record counts while the function is on the stack. */
  function Charge(r: Record): int {
    r.localTime + if r.recursive > 0 then r.tempLocal else 0
  }

  function RecordOf(c: Context, f: int): Record {
    if f in c.functions then c.functions[f] else NEW_RECORD
  }

  /** What the events say of f. */
  datatype Summary = Summary(top: bool, occurrences: nat, enters: nat, self: int, presence: int, outermost: int,
    clock: int)

  function Summarize(es: seq<Event>, f: int): Summary {
    var stack := StackAfter(es);
    var n := Occurrences(stack, f);
    Summary(OnTop(stack, f), n, Enters(es, f), SelfTime(es, f), PresenceTime(es, f),
            if n > 0 then Outermost(stack, f) else 0, Clock(es))
  }

  function OnTop(stack: seq<Frame>, f: int): bool {
    stack != [] && Top(stack).symbol == f
  }

  /** The record says what the events say: its recursion state is the number of frames of f, its
      local time the time f was on top of the stack, its total time the time f was on the stack;
      of both, the part of the present stay is still to be added. */
  predicate Agrees(r: Record, s: Summary) {
    && r.recursive == s.occurrences
    && r.calls == s.enters
    && r.localTime >= 0 && r.totalTime >= 0 && r.tempLocal >= 0
    && Charge(r) == s.self
    && r.totalTime + (if s.occurrences > 0 then s.clock - s.outermost else 0) == s.presence
    && (s.top ==> r.lastTime == s.clock)
  }

  predicate Faithful(es: seq<Event>, f: int) {
    Agrees(RecordOf(Run(es), f), Summarize(es, f))
  }

  ghost predicate Bounded(es: seq<Event>, f: int) {
    && 0 <= SelfTime(es, f) <= PresenceTime(es, f) <= Clock(es)
    && (Occurrences(StackAfter(es), f) > 0 ==> 0 <= Outermost(StackAfter(es), f) <= Clock(es))
    && (OnTop(StackAfter(es), f) ==> Outermost(StackAfter(es), f) <= Top(StackAfter(es)).time)
  }

  /** Frames are pushed in the order of time. */
  predicate Ordered(stack: seq<Frame>, clock: int) {
    && (forall i :: 0 <= i < |stack| ==> 0 <= stack[i].time <= clock)
    && forall i, j :: 0 <= i < j < |stack| ==> stack[i].time <= stack[j].time
  }

  lemma {:induction false} OutermostFirst(stack: seq<Frame>, f: int, clock: int)
    requires Occurrences(stack, f) > 0 && Ordered(stack, clock)
    ensures 0 <= Outermost(stack, f) <= Top(stack).time <= clock
  {
    var rest := stack[..|stack| - 1];
    if Occurrences(rest, f) > 0 {
      OutermostFirst(rest, f, clock);
    }
  }

  lemma {:induction false} TimedPrefix(es: seq<Event>)
    requires Timed(es) && es != []
    ensures Timed(es[..|es| - 1])
  {
  }

  lemma {:induction false} ClockBound(es: seq<Event>)
    requires Timed(es)
    ensures 0 <= Clock(es) <= U64_MAX
    ensures forall i :: |es| > 0 && i == |es| - 1 ==> Clock(es[..i]) <= Clock(es) <= es[i].time
  {
    if es != [] {
      TimedPrefix(es);
      ClockBound(es[..|es| - 1]);
      ClockBefore(es[..|es| - 1], es[|es| - 1].time);
    }
  }

  lemma {:induction false} ClockBefore(es: seq<Event>, t: int)
    requires t >= 0 && forall i :: 0 <= i < |es| ==> es[i].time <= t
    ensures Clock(es) <= t
  {
    if es != [] {
      ClockBefore(es[..|es| - 1], t);
    }
  }

  lemma {:induction false} StackSame(es: seq<Event>)
    ensures Run(es).stack == StackAfter(es)
  {
    if es != [] {
      StackSame(es[..|es| - 1]);
    }
  }

  /** The table has a record for exactly the functions that have been entered, with the number of calls,
      whatever the times of the events are. */
  lemma {:induction false} RecordsAreOfCalls(es: seq<Event>, f: int)
    ensures f in Run(es).functions <==> Enters(es, f) > 0
    ensures RecordOf(Run(es), f).calls == Enters(es, f)
  {
    if es != [] {
      RecordsAreOfCalls(es[..|es| - 1], f);
    }
  }

  lemma {:induction false} StackOrdered(es: seq<Event>)
    requires Timed(es)
    ensures Ordered(StackAfter(es), Clock(es))
  {
    if es != [] {
      TimedPrefix(es);
      StackOrdered(es[..|es| - 1]);
      ClockBound(es);
    }
  }

  lemma {:induction false} BoundedAt(es: seq<Event>, f: int)
    requires Timed(es)
    ensures Bounded(es, f)
  {
    StackOrdered(es);
    if Occurrences(StackAfter(es), f) > 0 {
      OutermostFirst(StackAfter(es), f, Clock(es));
    }
    if es != [] {
      TimedPrefix(es);
      ClockBound(es);
      BoundedAt(es[..|es| - 1], f);
    }
  }

  // ---------------------------------------------------------------- every event keeps it

  function Run64(r: Record, time: int): Record {
    r.(tempLocal := Add64(r.tempLocal, Sub64(time, r.lastTime)))
  }

  function Entered(r: Record, time: int): Record {
    r.(recursive := r.recursive + 1, calls := r.calls + 1, lastTime := time)
  }

  /** What an enter event does to one record: to that of the function entered, and to others. */
  lemma {:induction false} EnterRecord(c: Context, f: int, site: int, time: int, g: int)
    requires StackKnown(c)
    ensures
      var r0 := if g == f then Prepared(c.functions, f) else RecordOf(c, g);
      var r1 := if OnTop(c.stack, g) then Run64(r0, time) else r0;
      RecordOf(EnterContext(c, f, site, time), g) == if g == f then Entered(r1, time) else r1
  {
  }

  /** What an accepted exit event does to one record. */
  lemma {:induction false} ExitRecord(c: Context, f: int, time: int, g: int)
    requires StackKnown(c) && Matches(c, f)
    ensures
      var r := if g == f then Leave(RecordOf(c, g), Top(c.stack).time, time) else RecordOf(c, g);
      RecordOf(ExitContext(c, f, time), g) ==
        if OnTop(c.stack[..|c.stack| - 1], g) then r.(lastTime := time) else r
  {
  }

  /** What passes for f while it is on top of the stack, or on the stack, until `time`. */
  function Pass(s: Summary, time: int): Summary {
    s.(self := s.self + (if s.top then time - s.clock else 0),
       presence := s.presence + (if s.occurrences > 0 then time - s.clock else 0),
       clock := time)
  }

  lemma {:induction false} PushedFrame(stack: seq<Frame>, frame: Frame, g: int)
    ensures var n := Occurrences(stack, g);
      && Occurrences(stack + [frame], g) == n + (if frame.symbol == g then 1 else 0)
      && (n > 0 ==> Outermost(stack + [frame], g) == Outermost(stack, g))
      && (n == 0 && frame.symbol == g ==> Outermost(stack + [frame], g) == frame.time)
  {
    assert (stack + [frame])[..|stack|] == stack;
  }

  lemma {:induction false} SummarizeEnter(es: seq<Event>, g: int)
    requires es != [] && es[|es| - 1].Enter?
    ensures
      var e, s := es[|es| - 1], Pass(Summarize(es[..|es| - 1], g), es[|es| - 1].time);
      Summarize(es, g) ==
        if e.symbol != g then s.(top := false)
        else s.(top := true, occurrences := s.occurrences + 1, enters := s.enters + 1,
                outermost := if s.occurrences > 0 then s.outermost else e.time)
  {
    var e := es[|es| - 1];
    PushedFrame(StackAfter(es[..|es| - 1]), Frame(e.symbol, e.site, e.time), g);
  }

  lemma {:induction false} SummarizeExit(es: seq<Event>, g: int)
    requires es != [] && es[|es| - 1].Exit? && Accepted(StackAfter(es[..|es| - 1]), es[|es| - 1])
    ensures
      var e, stack := es[|es| - 1], StackAfter(es[..|es| - 1]);
      var s, top := Pass(Summarize(es[..|es| - 1], g), e.time), OnTop(stack[..|stack| - 1], g);
      Summarize(es, g) ==
        if e.symbol != g then s.(top := top)
        else s.(top := top, occurrences := s.occurrences - 1, outermost := if s.occurrences > 1 then s.outermost else 0)
  {
  }

  lemma {:induction false} EnterAgrees(r: Record, s: Summary, same: bool, time: int)
    requires Agrees(r, s) && s.clock <= time <= U64_MAX && 0 <= s.self + time - s.clock <= U64_MAX
    requires s.top ==> s.occurrences > 0
    ensures
      var r0 := if same && r.recursive == 0 then r.(tempLocal := 0) else r;
      var r1 := if s.top then Run64(r0, time) else r0;
      var t := Pass(s, time);
      if same then
        Agrees(Entered(r1, time), t.(top := true, occurrences := t.occurrences + 1, enters := t.enters + 1,
                                     outermost := if t.occurrences > 0 then t.outermost else time))
      else Agrees(r1, t.(top := false))
  {
  }

  lemma {:induction false} ExitAgrees(r: Record, s: Summary, same: bool, entry: int, top: bool, time: int)
    requires Agrees(r, s) && s.clock <= time <= U64_MAX && 0 <= s.self + time - s.clock <= U64_MAX
    requires 0 <= s.presence + time - s.clock <= U64_MAX && 0 <= entry <= time
    requires same == s.top && (same ==> s.occurrences > 0 && (s.occurrences == 1 ==> s.outermost == entry))
    ensures
      var r0 := if same then Leave(r, entry, time) else r;
      var r1 := if top then r0.(lastTime := time) else r0;
      var t := Pass(s, time);
      Agrees(r1, if same then t.(top := top, occurrences := t.occurrences - 1,
                                 outermost := if t.occurrences > 1 then t.outermost else 0)
                 else t.(top := top))
  {
  }

  /** Up to the last event no time overflows. */
  lemma {:induction false} TimesFit(es: seq<Event>, g: int)
    requires Timed(es) && es != []
    ensures var s, time := Summarize(es[..|es| - 1], g), es[|es| - 1].time;
      && s.clock <= time <= U64_MAX && 0 <= s.self + time - s.clock <= U64_MAX
      && 0 <= s.presence + time - s.clock <= U64_MAX && (s.top ==> s.occurrences > 0)
  {
    TimedPrefix(es);
    BoundedAt(es[..|es| - 1], g);
    ClockBound(es);
  }

  lemma {:induction false} FaithfulEnter(es: seq<Event>, g: int)
    requires Timed(es) && es != [] && es[|es| - 1].Enter? && Faithful(es[..|es| - 1], g)
    ensures Faithful(es, g)
  {
    var before, e := es[..|es| - 1], es[|es| - 1];
    var c := Run(before);
    StackSame(before);
    TimesFit(es, g);
    EnterAgrees(RecordOf(c, g), Summarize(before, g), e.symbol == g, e.time);
    EnterRecord(c, e.symbol, e.site, e.time, g);
    SummarizeEnter(es, g);
  }

  lemma {:induction false} FaithfulExit(es: seq<Event>, g: int)
    requires Timed(es) && es != [] && es[|es| - 1].Exit? && Faithful(es[..|es| - 1], g)
    ensures Faithful(es, g)
  {
    var before, e := es[..|es| - 1], es[|es| - 1];
    TimedPrefix(es);
    StackSame(before);
    TimesFit(es, g);
    var c := Run(before);
    if Accepted(c.stack, e) {
      ExitRecord(c, e.symbol, e.time, g);
      SummarizeExit(es, g);
      StackOrdered(before);
      ExitAgrees(RecordOf(c, g), Summarize(before, g), e.symbol == g, Top(c.stack).time,
                 OnTop(c.stack[..|c.stack| - 1], g), e.time);
    }
  }

  /** Presence and self time: after any events, direct and mutual recursion and rejected exits
      included, every record says what the events say. */
  lemma {:induction false} FaithfulAt(es: seq<Event>, g: int)
    requires Timed(es)
    ensures Faithful(es, g)
  {
    if es != [] {
      TimedPrefix(es);
      FaithfulAt(es[..|es| - 1], g);
      if es[|es| - 1].Enter? {
        FaithfulEnter(es, g);
      } else {
        FaithfulExit(es, g);
      }
    }
  }

  // ---------------------------------------------------------------- extremes

  /** While f is on the stack, its local time is the one from before its present stay. */
  lemma {:induction false} StayKeepsLocal(es: seq<Event>, f: int)
    requires Timed(es) && es != [] && Occurrences(StackAfter(es), f) > 0
    ensures RecordOf(Run(es), f).localTime == RecordOf(Run(es[..|es| - 1]), f).localTime
  {
    var before, e := es[..|es| - 1], es[|es| - 1];
    TimedPrefix(es);
    FaithfulAt(before, f);
    StackSame(before);
    var c := Run(before);
    if e.Enter? {
      EnterRecord(c, e.symbol, e.site, e.time, f);
    } else if Accepted(c.stack, e) {
      ExitRecord(c, e.symbol, e.time, f);
    }
  }

  lemma {:induction false} LocalIsSelfBefore(es: seq<Event>, f: int)
    requires Timed(es)
    ensures RecordOf(Run(es), f).localTime == SelfBefore(es, f)
  {
    FaithfulAt(es, f);
    if Occurrences(StackAfter(es), f) > 0 {
      TimedPrefix(es);
      LocalIsSelfBefore(es[..|es| - 1], f);
      StayKeepsLocal(es, f);
    }
  }

  /** The extremes of the record are those of the completed activations, nested ones included, and
      no larger than the sums. */
  predicate Extremes(es: seq<Event>, f: int) {
    var r := RecordOf(Run(es), f);
    && r.maxTime == Longest(es, f) && r.minTime == Shortest(es, f)
    && r.maxLocal == LargestSelf(es, f) && r.minLocal == SmallestSelf(es, f)
    && 0 <= r.maxTime <= PresenceTime(es, f)
    && 0 <= r.maxLocal <= SelfTime(es, f)
    && (if Completed(es, f) > 0 then r.minTime <= r.maxTime && r.minLocal <= r.maxLocal
        else r.maxTime == r.maxLocal == 0 && r.minTime == r.minLocal == U64_MAX)
  }

  /** An event that does not end an activation of g leaves its extremes alone. */
  lemma {:induction false} ExtremesOther(es: seq<Event>, g: int)
    requires Timed(es) && es != [] && Extremes(es[..|es| - 1], g) && !EndsOne(es, g)
    ensures Extremes(es, g)
  {
    var before, e := es[..|es| - 1], es[|es| - 1];
    StackSame(before);
    ClockBound(es);
    var c := Run(before);
    if e.Enter? {
      EnterRecord(c, e.symbol, e.site, e.time, g);
    } else if Accepted(c.stack, e) {
      ExitRecord(c, e.symbol, e.time, g);
    }
  }

  lemma {:induction false} LeaveExtremes(r: Record, s: Summary, entry: int, time: int)
    requires Agrees(r, s) && s.top && s.occurrences > 0
    requires 0 <= s.outermost <= entry <= s.clock <= time <= U64_MAX && s.self <= s.presence <= s.clock
    requires 0 <= r.maxTime <= s.presence && 0 <= r.maxLocal <= s.self
    ensures var t, temp := Leave(r, entry, time), Sub64(time, r.lastTime) + r.tempLocal;
      && t.maxTime == (if time - entry > r.maxTime then time - entry else r.maxTime)
      && t.minTime == (if time - entry < r.minTime then time - entry else r.minTime)
      && t.maxTime <= Pass(s, time).presence
      && 0 <= temp <= Pass(s, time).self <= U64_MAX && temp == Pass(s, time).self - r.localTime
      && t.maxLocal == (if temp > r.maxLocal then temp else r.maxLocal)
      && t.minLocal == (if temp < r.minLocal then temp else r.minLocal)
  {
  }

  /** The end of an activation, in terms of its duration and of the stay on top that it ends. */
  lemma {:induction false} EndLeaves(es: seq<Event>, g: int)
    requires Timed(es) && es != [] && Extremes(es[..|es| - 1], g) && Faithful(es[..|es| - 1], g) && EndsOne(es, g)
    ensures
      var r, t := RecordOf(Run(es[..|es| - 1]), g), RecordOf(Run(es), g);
      var time, stay := Duration(es, g), SelfOfStay(es, g);
      && t.maxTime == (if time > r.maxTime then time else r.maxTime)
      && t.minTime == (if time < r.minTime then time else r.minTime)
      && t.maxLocal == (if stay > r.maxLocal then stay else r.maxLocal)
      && t.minLocal == (if stay < r.minLocal then stay else r.minLocal)
      && 0 <= time <= U64_MAX && t.maxTime <= PresenceTime(es, g)
      && 0 <= stay <= U64_MAX && t.maxLocal <= SelfTime(es, g)
  {
    var before, e := es[..|es| - 1], es[|es| - 1];
    TimedPrefix(es);
    StackSame(before);
    StackOrdered(before);
    BoundedAt(before, g);
    ClockBound(es);
    var c := Run(before);
    ExitRecord(c, e.symbol, e.time, g);
    SummarizeExit(es, g);
    LocalIsSelfBefore(before, g);
    LeaveExtremes(RecordOf(c, g), Summarize(before, g), Top(c.stack).time, e.time);
  }

  lemma {:induction false} ExtremesEnd(es: seq<Event>, g: int)
    requires Timed(es) && es != [] && Extremes(es[..|es| - 1], g) && Faithful(es[..|es| - 1], g) && EndsOne(es, g)
    ensures Extremes(es, g)
  {
    EndLeaves(es, g);
  }

  lemma {:induction false} ExtremesAt(es: seq<Event>, g: int)
    requires Timed(es)
    ensures Extremes(es, g)
  {
    if es != [] {
      TimedPrefix(es);
      ExtremesAt(es[..|es| - 1], g);
      FaithfulAt(es[..|es| - 1], g);
      if EndsOne(es, g) {
        ExtremesEnd(es, g);
      } else {
        ExtremesOther(es, g);
      }
    }
  }

  // ---------------------------------------------------------------- the fields in between

  /** The time of the event that last made f the function on top of the stack, or 0. */
  function Resumed(es: seq<Event>, f: int): int {
    if es == [] then 0
    else if Accepted(StackAfter(es[..|es| - 1]), es[|es| - 1]) && OnTop(StackAfter(es), f) then es[|es| - 1].time
    else Resumed(es[..|es| - 1], f)
  }

  /** last_time is that time, for every function and whatever the times of the events are. */
  lemma {:induction false} LastTimeIsResumed(es: seq<Event>, f: int)
    ensures RecordOf(Run(es), f).lastTime == Resumed(es, f)
  {
    if es != [] {
      var before, e := es[..|es| - 1], es[|es| - 1];
      var c := Run(before);
      LastTimeIsResumed(before, f);
      StackSame(before);
      if e.Enter? {
        EnterRecord(c, e.symbol, e.site, e.time, f);
      } else if Accepted(c.stack, e) {
        ExitRecord(c, e.symbol, e.time, f);
      }
    }
  }

  /** How long f was on top of the stack in its present stay on the stack, or else in its latest one. */
  function LatestStay(es: seq<Event>, f: int): int {
    if es == [] then 0
    else if Occurrences(StackAfter(es), f) > 0 then SelfTime(es, f) - SelfBefore(es, f)
    else if EndsOne(es, f) then SelfOfStay(es, f)
    else LatestStay(es[..|es| - 1], f)
  }

  lemma {:induction false} StayEnds(es: seq<Event>, f: int)
    requires Timed(es) && EndsOne(es, f) && Occurrences(StackAfter(es), f) == 0
    ensures RecordOf(Run(es), f).tempLocal == SelfOfStay(es, f)
  {
    var before, e := es[..|es| - 1], es[|es| - 1];
    TimedPrefix(es);
    FaithfulAt(before, f);
    StackSame(before);
    StackOrdered(before);
    BoundedAt(before, f);
    ClockBound(es);
    SummarizeExit(es, f);
    LocalIsSelfBefore(before, f);
    ExitRecord(Run(before), e.symbol, e.time, f);
    LeaveTemp(RecordOf(Run(before), f), Summarize(before, f), Top(StackAfter(before)).time, e.time);
  }

  lemma {:induction false} LeaveTemp(r: Record, s: Summary, entry: int, time: int)
    requires Agrees(r, s) && s.top && s.occurrences > 0 && 0 <= s.clock <= time <= U64_MAX && s.self <= s.clock
    ensures Leave(r, entry, time).tempLocal == Pass(s, time).self - r.localTime
  {
  }

  /** temp_ltime is that time. */
  lemma {:induction false} TempIsLatestStay(es: seq<Event>, f: int)
    requires Timed(es)
    ensures RecordOf(Run(es), f).tempLocal == LatestStay(es, f)
  {
    if es != [] {
      var before, e := es[..|es| - 1], es[|es| - 1];
      TimedPrefix(es);
      if Occurrences(StackAfter(es), f) > 0 {
        FaithfulAt(es, f);
        LocalIsSelfBefore(es, f);
      } else if EndsOne(es, f) {
        StayEnds(es, f);
      } else {
        TempIsLatestStay(before, f);
        StayOver(es, f);
      }
    }
  }

  /** An event of other functions leaves alone what is off the stack. */
  lemma {:induction false} StayOver(es: seq<Event>, f: int)
    requires es != [] && Occurrences(StackAfter(es), f) == 0 && !EndsOne(es, f)
    ensures RecordOf(Run(es), f).tempLocal == RecordOf(Run(es[..|es| - 1]), f).tempLocal
  {
    var before, e := es[..|es| - 1], es[|es| - 1];
    var c := Run(before);
    StackSame(before);
    StackSame(es);
    if e.Enter? {
      PushedFrame(c.stack, Frame(e.symbol, e.site, e.time), f);
      EnterRecord(c, e.symbol, e.site, e.time, f);
    } else if Accepted(c.stack, e) {
      ExitRecord(c, e.symbol, e.time, f);
    }
  }
}
