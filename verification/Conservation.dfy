/** Laws of the time accounting over any sequence of events: time is conserved, the records of
    functions off the stack are final, and no 64-bit field overflows. */
module Conservation {
  import opened Accounting
  import opened Maps

  function SelfTimes(es: seq<Event>, keys: set<int>): map<int, int> {
    map f | f in keys :: SelfTime(es, f)
  }

  function Charges(c: Context): map<int, int> {
    map f | f in c.functions :: Charge(c.functions[f])
  }

  lemma {:induction false} SelfTimesAt(es: seq<Event>, keys: set<int>, x: int)
    requires es != [] && x in keys && OnTop(StackAfter(es[..|es| - 1]), x)
    ensures Total(SelfTimes(es, keys)) == Total(SelfTimes(es[..|es| - 1], keys)) + Gap(es)
  {
    var m, m0 := SelfTimes(es, keys), SelfTimes(es[..|es| - 1], keys);
    TotalUpdate(m0, x, m0[x] + Gap(es));
    SameMap(m, m0[x := m0[x] + Gap(es)]);
  }

  lemma {:induction false} SelfTimesStep(es: seq<Event>, keys: set<int>)
    requires es != [] && Run(es).functions.Keys <= keys
    ensures Total(SelfTimes(es, keys)) ==
      Total(SelfTimes(es[..|es| - 1], keys)) + if StackAfter(es[..|es| - 1]) != [] then Gap(es) else 0
  {
    var before := es[..|es| - 1];
    var stack := StackAfter(before);
    StackSame(before);
    if stack == [] {
      SameMap(SelfTimes(es, keys), SelfTimes(before, keys));
    } else {
      assert Top(stack).symbol in Run(before).functions;
      SelfTimesAt(es, keys, Top(stack).symbol);
    }
  }

  lemma {:induction false} SelfTimesTotal(es: seq<Event>, keys: set<int>)
    requires Run(es).functions.Keys <= keys
    ensures Total(SelfTimes(es, keys)) == BusyTime(es)
  {
    if es == [] {
      var m := SelfTimes(es, keys);
      SumZero(m.Keys, m);
    } else {
      assert Run(es[..|es| - 1]).functions.Keys <= Run(es).functions.Keys;
      SelfTimesTotal(es[..|es| - 1], keys);
      SelfTimesStep(es, keys);
    }
  }

  /** Conservation of time: the local times of all functions, with what is still to be added for
      those on the stack, sum up to the time during which the stack was not empty. */
  lemma {:induction false} TimeIsConserved(es: seq<Event>)
    requires Timed(es)
    ensures Total(Charges(Run(es))) == BusyTime(es)
  {
    var c := Run(es);
    SelfTimesTotal(es, c.functions.Keys);
    forall f | f in c.functions ensures Charge(c.functions[f]) == SelfTime(es, f) {
      FaithfulAt(es, f);
    }
    SameMap(Charges(c), SelfTimes(es, c.functions.Keys));
  }

  /** A function off the stack: its local and total times are those it spent on top of the stack
      and on the stack, and its extremes are consistent with them. */
  lemma {:induction false} OffStack(es: seq<Event>, f: int)
    requires Timed(es) && f in Run(es).functions && forall i :: 0 <= i < |Run(es).stack| ==>
      Run(es).stack[i].symbol != f
    ensures var r := Run(es).functions[f];
      && r.recursive == 0
      && r.localTime == SelfTime(es, f) && r.totalTime == PresenceTime(es, f) && r.localTime <= r.totalTime
      && (Completed(es, f) > 0 ==> r.minTime <= r.maxTime <= r.totalTime && r.minLocal <= r.maxLocal <= r.localTime)
      && r.minTime == Shortest(es, f) && r.maxTime == Longest(es, f)
      && r.minLocal == SmallestSelf(es, f) && r.maxLocal == LargestSelf(es, f)
  {
    FaithfulAt(es, f);
    ExtremesAt(es, f);
    BoundedAt(es, f);
    StackSame(es);
    NoOccurrence(StackAfter(es), f);
  }

  lemma {:induction false} NoOccurrence(stack: seq<Frame>, f: int)
    requires forall i :: 0 <= i < |stack| ==> stack[i].symbol != f
    ensures Occurrences(stack, f) == 0
  {
    if stack != [] {
      NoOccurrence(stack[..|stack| - 1], f);
    }
  }

  /** No time of a record exceeds the time of the last accepted event, so none overflows. */
  lemma {:induction false} NoOverflow(es: seq<Event>, f: int)
    requires Timed(es) && f in Run(es).functions
    ensures var r := Run(es).functions[f];
      0 <= r.localTime <= Clock(es) && 0 <= r.totalTime <= Clock(es) && r.maxTime <= Clock(es)
      && r.maxLocal <= Clock(es) && Clock(es) <= U64_MAX
      && (r.recursive > 0 ==> 0 <= r.tempLocal <= Clock(es))
  {
    FaithfulAt(es, f);
    ExtremesAt(es, f);
    BoundedAt(es, f);
    ClockBound(es);
  }
}
