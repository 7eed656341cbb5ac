/** Properties of whole runs of the bakery lock: mutual exclusion, recursive locking, the bound
    on tickets, the order of service, and progress. */
module BakeryRuns {
  import opened Bakery

  // ---------------------------------------------------------------- runs

  /** `b` is the sequence of states that the steps `ms` produce from the initial state. */
  ghost predicate Run(n: nat, b: seq<State>, ms: seq<Move>) {
    && |b| == |ms| + 1
    && b[0] == Init(n)
    && (forall k :: 0 <= k < |b| ==> b[k].Shaped(n))
    && (forall k :: 0 <= k < |ms| ==> ms[k].p < n && b[k + 1] == Step(b[k], n, ms[k]))
  }

  lemma {:induction false} RunMore(n: nat, b: seq<State>, ms: seq<Move>, m: Move)
    requires Run(n, b, ms) && m.p < n
    ensures Run(n, b + [Step(b[|ms|], n, m)], ms + [m])
  {
    var t := Step(b[|ms|], n, m);
    forall k | 0 <= k < |ms| + 1 ensures (b + [t])[k + 1] == Step((b + [t])[k], n, (ms + [m])[k]) {
      if k < |ms| {
        assert (b + [t])[k] == b[k] && (b + [t])[k + 1] == b[k + 1] && (ms + [m])[k] == ms[k];
      }
    }
  }

  /** No doorway copy lowers a ticket: what the second read of a ticket returns is still no less
      than the reader's own.  In particular this is so when both reads return the same value. */
  ghost predicate CopiesGently(n: nat, b: seq<State>, ms: seq<Move>)
    requires Run(n, b, ms)
  {
    forall k :: 0 <= k < |ms| ==> (b[k].pc[ms[k].p].Copy? ==> Gentle(b[k], n, ms[k]))
  }

  /** The processes that step. */
  function Movers(ms: seq<Move>): set<nat> {
    set k | 0 <= k < |ms| :: ms[k].p
  }

  /** Processes that nest no gets, so that a holder always puts the lock back. */
  predicate Putting(ms: seq<Move>) {
    forall k :: 0 <= k < |ms| ==> ms[k].call.Put?
  }

  /** No two processes hold the lock at once. */
  ghost predicate Exclusive(b: seq<State>) {
    forall t: nat, p: nat, q: nat :: t < |b| && b[t].Holds(p) && b[t].Holds(q) ==> p == q
  }

  predicate Quiet(s: State, n: nat)
    requires s.Shaped(n)
  {
    forall p: nat :: p < n ==> s.sem.number[p] == 0 && !s.sem.choosing[p]
  }

  /** How many processes complete a ticket in the steps from `a` to `t`. */
  ghost function Doorways(n: nat, b: seq<State>, ms: seq<Move>, a: nat, t: nat): nat
    requires Run(n, b, ms) && a <= t <= |ms|
  {
    if a == t then 0
    else Doorways(n, b, ms, a, t - 1) + (if b[t - 1].pc[ms[t - 1].p].Increment? then 1 else 0)
  }

  lemma {:induction false} DoorwaysSame(n: nat, b: seq<State>, ms: seq<Move>, b': seq<State>, ms': seq<Move>, t: nat)
    requires Run(n, b, ms) && Run(n, b', ms') && t <= |ms| <= |ms'| && b <= b' && ms <= ms'
    ensures Doorways(n, b', ms', 0, t) == Doorways(n, b, ms, 0, t)
  {
    if t > 0 {
      DoorwaysSame(n, b, ms, b', ms', t - 1);
    }
  }

  lemma {:induction false} DoorwaysGrow(n: nat, b: seq<State>, ms: seq<Move>, t: nat, u: nat)
    requires Run(n, b, ms) && t <= u <= |ms|
    ensures Doorways(n, b, ms, 0, t) <= Doorways(n, b, ms, 0, u)
  {
    if t < u {
      DoorwaysGrow(n, b, ms, t, u - 1);
    }
  }

  lemma {:induction false} DoorwaysMore(n: nat, b: seq<State>, ms: seq<Move>, m: Move)
    requires Run(n, b, ms) && m.p < n
    ensures var c, ns := b + [Step(b[|ms|], n, m)], ms + [m];
      && Run(n, c, ns)
      && Doorways(n, c, ns, 0, |ns|) == Doorways(n, b, ms, 0, |ms|) + if b[|ms|].pc[m.p].Increment? then 1 else 0
  {
    var c, ns := b + [Step(b[|ms|], n, m)], ms + [m];
    RunMore(n, b, ms, m);
    DoorwaysSame(n, b, ms, c, ns, |ms|);
    assert c[|ms|] == b[|ms|] && ns[|ms|] == m;
  }

  /** At every moment, no more tickets have been completed since some state with all tickets zero
      and nobody choosing than a `short` can count. */
  ghost predicate Spaced(n: nat, b: seq<State>, ms: seq<Move>)
    requires Run(n, b, ms)
  {
    forall t: nat :: t <= |ms| ==> Calm(n, b, ms, t)
  }

  ghost predicate Calm(n: nat, b: seq<State>, ms: seq<Move>, t: nat)
    requires Run(n, b, ms)
  {
    exists a: nat :: RecentlyQuiet(n, b, ms, a, t)
  }

  ghost predicate RecentlyQuiet(n: nat, b: seq<State>, ms: seq<Move>, a: nat, t: nat)
    requires Run(n, b, ms)
  {
    a <= t <= |ms| && Quiet(b[a], n) && Doorways(n, b, ms, a, t) <= SHORT_MAX
  }

  // ---------------------------------------------------------------- the ticket bound

  ghost predicate Announced(s: State, n: nat)
    requires s.Shaped(n)
  {
    forall p: nat :: p < n ==> s.sem.choosing[p] == Doorway(s.pc[p])
  }

  lemma {:induction false} AnnouncedStep(s: State, n: nat, m: Move)
    requires s.Shaped(n) && m.p < n && Announced(s, n)
    ensures Announced(Step(s, n, m), n)
  {
  }

  lemma {:induction false} AnnouncedAt(n: nat, b: seq<State>, ms: seq<Move>, t: nat)
    requires Run(n, b, ms) && t <= |ms|
    ensures Announced(b[t], n)
  {
    if t > 0 {
      AnnouncedAt(n, b, ms, t - 1);
      AnnouncedStep(b[t - 1], n, ms[t - 1]);
    }
  }

  ghost predicate TicketsWithin(s: State, n: nat, bound: nat)
    requires s.Shaped(n)
  {
    forall p: nat :: p < n ==>
      0 <= s.sem.number[p] <= bound && (s.pc[p].Store? ==> 0 <= s.pc[p].v <= bound)
  }

  lemma {:induction false} TicketsStep(s: State, n: nat, m: Move, bound: nat)
    requires s.Shaped(n) && m.p < n && TicketsWithin(s, n, bound)
    requires s.pc[m.p].Increment? ==> bound < SHORT_MAX
    ensures TicketsWithin(Step(s, n, m), n, bound + if s.pc[m.p].Increment? then 1 else 0)
  {
  }

  /** No ticket exceeds the number of doorways completed since the last quiet state; so fewer than
      32768 of them cannot overflow the 16-bit field.  This needs no assumption on the copies. */
  lemma {:induction false} TicketBound(n: nat, b: seq<State>, ms: seq<Move>, a: nat, t: nat)
    requires Run(n, b, ms) && RecentlyQuiet(n, b, ms, a, t)
    ensures TicketsWithin(b[t], n, Doorways(n, b, ms, a, t))
  {
    if a == t {
      AnnouncedAt(n, b, ms, t);
    } else {
      TicketBound(n, b, ms, a, t - 1);
      TicketsStep(b[t - 1], n, ms[t - 1], Doorways(n, b, ms, a, t - 1));
    }
  }

  // ---------------------------------------------------------------- mutual exclusion

  /** A ticket that is incremented fits in a `short` afterwards. */
  lemma {:induction false} FitsAt(n: nat, b: seq<State>, ms: seq<Move>, k: nat)
    requires Run(n, b, ms) && Spaced(n, b, ms) && k < |ms|
    ensures b[k].pc[ms[k].p].Increment? ==> b[k].sem.number[ms[k].p] < SHORT_MAX
  {
    if b[k].pc[ms[k].p].Increment? {
      assert Calm(n, b, ms, k + 1);
      var a: nat :| RecentlyQuiet(n, b, ms, a, k + 1);
      AnnouncedAt(n, b, ms, k + 1);
      assert b[k + 1] == Step(b[k], n, ms[k]);
      assert b[k + 1].sem.choosing[ms[k].p];
      assert a <= k;
      TicketBound(n, b, ms, a, k);
    }
  }

  lemma {:induction false} GentleAt(n: nat, b: seq<State>, ms: seq<Move>, k: nat)
    requires Run(n, b, ms) && CopiesGently(n, b, ms) && Spaced(n, b, ms) && k < |ms|
    ensures Gentle(b[k], n, ms[k])
  {
    FitsAt(n, b, ms, k);
  }

  lemma {:induction false} InvAt(n: nat, b: seq<State>, ms: seq<Move>, t: nat)
    requires Run(n, b, ms) && CopiesGently(n, b, ms) && Spaced(n, b, ms) && t <= |ms|
    ensures Inv(b[t], n)
  {
    if t == 0 {
      InvInit(n);
    } else {
      InvAt(n, b, ms, t - 1);
      GentleAt(n, b, ms, t - 1);
      InvStep(b[t - 1], n, ms[t - 1]);
    }
  }

  /** Mutual exclusion: in any interleaving, at most one process is past get and before its
      outermost put. */
  lemma {:induction false} MutualExclusion(n: nat, b: seq<State>, ms: seq<Move>, t: nat, p: nat, q: nat)
    requires Run(n, b, ms) && CopiesGently(n, b, ms) && Spaced(n, b, ms)
    requires t <= |ms| && b[t].Holds(p) && b[t].Holds(q)
    ensures p == q
  {
    InvAt(n, b, ms, t);
    OneHolder(b[t], n, p, q);
  }

  /** Every doorway comparison and the copy that follows it are one read: nothing happens between them. */
  ghost predicate ReadsOnce(n: nat, b: seq<State>, ms: seq<Move>)
    requires Run(n, b, ms)
  {
    forall k :: 0 <= k < |ms| && b[k].pc[ms[k].p].Copy? ==> k > 0 && ms[k - 1].p == ms[k].p
  }

  /** The algorithm that was intended, with one read of each ticket in the doorway, lowers no ticket. */
  lemma {:induction false} OneReadIsGentle(n: nat, b: seq<State>, ms: seq<Move>)
    requires Run(n, b, ms) && ReadsOnce(n, b, ms)
    ensures CopiesGently(n, b, ms)
  {
    forall k | 0 <= k < |ms| && b[k].pc[ms[k].p].Copy? ensures Gentle(b[k], n, ms[k]) {
      assert ms[k - 1].p == ms[k].p && b[k - 1 + 1] == Step(b[k - 1], n, ms[k - 1]);
    }
  }

  /** Mutual exclusion of the intended algorithm, in every interleaving. */
  lemma {:induction false} OneReadExclusion(n: nat, b: seq<State>, ms: seq<Move>, t: nat, p: nat, q: nat)
    requires Run(n, b, ms) && ReadsOnce(n, b, ms) && Spaced(n, b, ms)
    requires t <= |ms| && b[t].Holds(p) && b[t].Holds(q)
    ensures p == q
  {
    OneReadIsGentle(n, b, ms);
    MutualExclusion(n, b, ms, t, p, q);
  }

  lemma {:induction false} InvIsSane(s: State, n: nat)
    requires Inv(s, n)
    ensures AllSane(s, n)
  {
    forall p: nat | p < n ensures Sane(s, n, p) {
      assert Local(s, n, p);
    }
  }

  /** Every run of the C text in which no ticket overflows, with copies that lower tickets or without. */
  lemma {:induction false} SaneAt(n: nat, b: seq<State>, ms: seq<Move>, t: nat)
    requires Run(n, b, ms) && Spaced(n, b, ms) && t <= |ms|
    ensures AllSane(b[t], n)
  {
    if t > 0 {
      SaneAt(n, b, ms, t - 1);
      FitsAt(n, b, ms, t - 1);
      SaneStep(b[t - 1], n, ms[t - 1]);
    }
  }

  // ---------------------------------------------------------------- recursive locking

  ghost predicate OneHolds(s: State) {
    forall p: nat, q: nat :: s.Holds(p) && s.Holds(q) ==> p == q
  }

  /** What the depth and the counter say of process p. */
  predicate Nests(s: State, n: nat, p: nat)
    requires s.Shaped(n) && p < n
  {
    (if s.Holds(p) then s.depth[p] > 0 else s.depth[p] == 0) && Counter(s, n, p)
  }

  ghost predicate Nested(s: State, n: nat) {
    && AllSane(s, n)
    && (forall p: nat :: p < n ==> Nests(s, n, p))
    && ((forall p: nat :: p < n ==> !s.Holds(p)) ==> s.sem.recursive == 0)
  }

  /** The process that steps keeps it: when it gets the lock, nobody has held it. */
  lemma {:induction false} NestsKept(s: State, n: nat, m: Move)
    requires Nested(s, n) && m.p < n && OneHolds(s) && OneHolds(Step(s, n, m))
    ensures Nests(Step(s, n, m), n, m.p)
  {
    var t := Step(s, n, m);
    assert Sane(s, n, m.p) && Nests(s, n, m.p);
    if t.Holds(m.p) && !s.Holds(m.p) {
      forall q: nat | q < n ensures !s.Holds(q) {
        assert s.Holds(q) ==> t.Holds(q);
      }
    }
  }

  lemma {:induction false} OthersNest(s: State, n: nat, m: Move, p: nat)
    requires Nested(s, n) && m.p < n && p < n && p != m.p && OneHolds(s)
    ensures Nests(Step(s, n, m), n, p)
  {
    assert Nests(s, n, p) && Nests(s, n, m.p) && Sane(s, n, m.p);
  }

  lemma {:induction false} FreeAgain(s: State, n: nat, m: Move)
    requires Nested(s, n) && m.p < n
    ensures var t := Step(s, n, m); (forall p: nat :: p < n ==> !t.Holds(p)) ==> t.sem.recursive == 0
  {
    var t := Step(s, n, m);
    assert Nests(s, n, m.p) && Sane(s, n, m.p);
    if forall p: nat :: p < n ==> !t.Holds(p) {
      assert !t.Holds(m.p);
      if !s.Holds(m.p) {
        forall p: nat | p < n ensures !s.Holds(p) {
          assert !t.Holds(p);
        }
      }
    }
  }

  lemma {:induction false} NestedAt(n: nat, b: seq<State>, ms: seq<Move>, t: nat)
    requires Run(n, b, ms) && Exclusive(b) && Spaced(n, b, ms) && t <= |ms|
    ensures Nested(b[t], n)
  {
    if t > 0 {
      NestedAt(n, b, ms, t - 1);
      SaneAt(n, b, ms, t);
      var s, m := b[t - 1], ms[t - 1];
      assert b[t] == Step(s, n, m);
      NestsKept(s, n, m);
      FreeAgain(s, n, m);
      forall p: nat | p < n ensures Nests(b[t], n, p) {
        if p != m.p {
          OthersNest(s, n, m, p);
        }
      }
    }
  }

  /** Recursive locking, in every run in which no two processes hold the lock at once.  The counter is the
      holder's nesting depth minus one, and zero when the lock is free.  A put clears the ticket exactly
      when it is the outermost one, and the value a nested operation is about to write back is still the
      current one. */
  lemma {:induction false} RecursiveLocking(n: nat, b: seq<State>, ms: seq<Move>, t: nat, p: nat)
    requires Run(n, b, ms) && Exclusive(b) && Spaced(n, b, ms) && t <= |ms| && p < n
    ensures var s, pc := b[t], b[t].pc[p];
      && (if s.Holds(p) then s.depth[p] >= 1 && s.sem.recursive == s.depth[p] - 1 else s.depth[p] == 0)
      && ((forall q: nat :: q < n ==> !s.Holds(q)) ==> s.sem.recursive == 0)
      && (pc.Release? ==> s.depth[p] == 1)
      && (pc.UnnestRead? || pc.UnnestWrite? ==> s.depth[p] > 1)
      && (pc.NestWrite? || pc.UnnestWrite? ==> pc.c == s.sem.recursive)
  {
    NestedAt(n, b, ms, t);
    assert Nests(b[t], n, p);
  }

  // ---------------------------------------------------------------- first come, first served

  /** p waits with its ticket announced, and q, which began its doorway later, is behind it. */
  predicate Ahead(s: State, n: nat, p: nat, q: nat)
    requires s.Shaped(n) && p < n && q < n
  {
    var pc := s.pc[q];
    && p != q
    && Waiting(s.pc[p])
    && !Holding(pc)
    && Catching(s, n, p, q)
    && (pc.Unchoose? || Waiting(pc) ==> s.sem.number[p] < s.sem.number[q])
    && (Waiting(pc) ==> pc.i <= p && (pc.TestEqual? ==> pc.i < p))
  }

  lemma {:induction false} AheadByFirst(s: State, n: nat, m: Move, q: nat)
    requires Inv(s, n) && m.p < n && q < n && Ahead(s, n, m.p, q)
    ensures Ahead(Step(s, n, m), n, m.p, q) || Step(s, n, m).Holds(m.p)
  {
    assert Local(s, n, m.p);
  }

  lemma {:induction false} AheadBySecond(s: State, n: nat, m: Move, p: nat)
    requires Inv(s, n) && m.p < n && Gentle(s, n, m) && p < n && Ahead(s, n, p, m.p)
    ensures Ahead(Step(s, n, m), n, p, m.p)
  {
    assert Local(s, n, p) && Local(s, n, m.p);
  }

  lemma {:induction false} AheadStep(s: State, n: nat, m: Move, p: nat, q: nat)
    requires Inv(s, n) && m.p < n && Gentle(s, n, m) && p < n && q < n && Ahead(s, n, p, q)
    ensures Ahead(Step(s, n, m), n, p, q) || Step(s, n, m).Holds(p)
  {
    if m.p == p {
      AheadByFirst(s, n, m, q);
    } else if m.p == q {
      AheadBySecond(s, n, m, p);
    }
  }

  /** First come, first served: when p has left its doorway before q announces its choice, q does
      not get the lock before p has had it. */
  lemma {:induction false} FirstComeFirstServed(n: nat, b: seq<State>, ms: seq<Move>, p: nat, q: nat, a: nat, t: nat)
    requires Run(n, b, ms) && CopiesGently(n, b, ms) && Spaced(n, b, ms)
    requires p < n && q < n && a <= t <= |ms|
    requires Waiting(b[a].pc[p]) && (b[a].pc[q].Idle? || b[a].pc[q].Choose?)
    requires forall k :: a <= k <= t ==> !b[k].Holds(p)
    ensures !b[t].Holds(q) && Ahead(b[t], n, p, q)
  {
    if a < t {
      FirstComeFirstServed(n, b, ms, p, q, a, t - 1);
      InvAt(n, b, ms, t - 1);
      GentleAt(n, b, ms, t - 1);
      AheadStep(b[t - 1], n, ms[t - 1], p, q);
    }
  }

  // ---------------------------------------------------------------- progress

  /** An upper bound on the steps of get that p still has to do, not counting waiting.  A process
      that finds a slot cleared after it saw a ticket there tests the slot once more. */
  function Remaining(s: State, n: nat, p: nat): int
    requires s.Shaped(n) && p < n
  {
    match s.pc[p]
    case Idle => 8 * n + 6
    case Choose => 8 * n + 5
    case Compare(i) => 5 * n + 3 * (n - i) + 3
    case Copy(i) => 5 * n + 3 * (n - i) + 2
    case Store(i, _) => 5 * n + 3 * (n - i) + 1
    case Increment => 5 * n + 2
    case Unchoose => 5 * n + 1
    case TestChoosing(i) => 5 * (n - i)
    case TestZero(i) => 5 * (n - i) - 2
    case TestLess(i) => 5 * (n - i) - if s.sem.number[i] == 0 then 1 else 3
    case TestEqual(i) => 5 * (n - i) - 4
    case _ => 0
  }

  /** p waits, nobody holds the lock or is in its doorway, and p has the smallest pair of ticket
      and slot of those who wait. */
  ghost predicate Next(s: State, n: nat, p: nat)
    requires s.Shaped(n) && p < n
  {
    && Waiting(s.pc[p])
    && forall j: nat :: j < n ==>
         !Doorway(s.pc[j]) && !s.Holds(j) && (j != p && Waiting(s.pc[j]) ==> Before(s, n, p, j))
  }

  /** The next process passes its present test, and stays the next one until it has the lock. */
  lemma {:induction false} NextAdvances(s: State, n: nat, p: nat, c: Call)
    requires AllSane(s, n) && p < n && Next(s, n, p)
    ensures var t := Step(s, n, Move(p, c));
      && AllSane(t, n)
      && (t.Holds(p) || (Next(t, n, p) && 0 < Remaining(t, n, p) < Remaining(s, n, p)))
  {
    var m := Move(p, c);
    SaneStep(s, n, m);
    var i := s.pc[p].i;
    assert Sane(s, n, p) && Sane(s, n, i) && !s.Holds(i);
    var t := Step(s, n, m);
    assert t.sem == s.sem;
    assert t.Holds(p) || Waiting(t.pc[p]);
    assert t.Holds(p) || Remaining(t, n, p) < Remaining(s, n, p);
    forall j: nat | j < n && !t.Holds(p)
      ensures !Doorway(t.pc[j]) && !t.Holds(j) && (j != p && Waiting(t.pc[j]) ==> Before(t, n, p, j))
    {
      assert !s.Holds(j);
    }
  }

  function Solo(s: State, n: nat, p: nat, k: nat): (t: State)
    requires s.Shaped(n) && p < n
    ensures t.Shaped(n)
    decreases k
  {
    if k == 0 then s else Solo(Step(s, n, Move(p, Get)), n, p, k - 1)
  }

  /** Left alone, the next process gets the lock: none of its remaining tests makes it wait. */
  lemma {:induction false} NextEnters(s: State, n: nat, p: nat) returns (k: nat)
    requires AllSane(s, n) && p < n && Next(s, n, p)
    ensures 0 < k <= Remaining(s, n, p) <= 5 * n && Solo(s, n, p, k).Holds(p)
    decreases Remaining(s, n, p)
  {
    NextAdvances(s, n, p, Get);
    var t := Step(s, n, Move(p, Get));
    if t.Holds(p) {
      k := 1;
      assert Solo(s, n, p, 1) == Solo(t, n, p, 0);
    } else {
      k := NextEnters(t, n, p);
      k := k + 1;
    }
  }

  /** The steps of other waiting processes take nothing from the next process. */
  lemma {:induction false} NextKept(s: State, n: nat, p: nat, m: Move)
    requires Inv(s, n) && p < n && Next(s, n, p) && m.p < n && m.p != p && Waiting(s.pc[m.p])
    ensures var t := Step(s, n, m); Inv(t, n) && Next(t, n, p) && Remaining(t, n, p) == Remaining(s, n, p)
  {
    var t := Step(s, n, m);
    InvStep(s, n, m);
    assert t.sem == s.sem && Pair(t, n, m.p, p);
    forall j: nat | j < n
      ensures !Doorway(t.pc[j]) && !t.Holds(j) && (j != p && Waiting(t.pc[j]) ==> Before(t, n, p, j))
    {
      assert !s.Holds(j);
    }
  }

  /** States that follow each other by steps in which nobody begins to choose. */
  ghost predicate Steps(n: nat, c: seq<State>, ms: seq<Move>) {
    && |c| == |ms| + 1
    && (forall k :: 0 <= k < |c| ==> c[k].Shaped(n))
    && forall k :: 0 <= k < |ms| ==>
         ms[k].p < n && c[k + 1] == Step(c[k], n, ms[k]) && !c[k].pc[ms[k].p].Idle? && !c[k].pc[ms[k].p].Choose?
  }

  function Turns(ms: seq<Move>, p: nat): nat {
    if ms == [] then 0 else Turns(ms[..|ms| - 1], p) + if ms[|ms| - 1].p == p then 1 else 0
  }

  lemma {:induction false} NextThroughout(n: nat, c: seq<State>, ms: seq<Move>, p: nat)
    requires Steps(n, c, ms) && p < n && Inv(c[0], n) && Next(c[0], n, p)
    requires forall k :: 0 <= k < |c| ==> !c[k].Holds(p)
    ensures Inv(c[|ms|], n) && Next(c[|ms|], n, p)
    ensures var t := c[|ms|]; 0 < Remaining(t, n, p) <= Remaining(c[0], n, p) - Turns(ms, p)
  {
    if ms == [] {
      assert c[0].pc[p].i < n;
    } else {
      NextThroughout(n, c[..|ms|], ms[..|ms| - 1], p);
      var s, m := c[|ms| - 1], ms[|ms| - 1];
      if m.p == p {
        InvIsSane(s, n);
        InvStep(s, n, m);
        NextAdvances(s, n, p, m.call);
      } else {
        assert !s.Holds(m.p) && !Doorway(s.pc[m.p]);
        NextKept(s, n, p, m);
      }
    }
  }

  /** Under any schedule in which nobody begins to choose, the next process gets the lock by at most
      five steps of its own for each slot, however often the others step in between. */
  lemma {:induction false} NextEntersInAnyOrder(n: nat, c: seq<State>, ms: seq<Move>, p: nat)
    requires Steps(n, c, ms) && p < n && Inv(c[0], n) && Next(c[0], n, p)
    requires Turns(ms, p) >= 5 * n
    ensures exists k :: 0 <= k < |c| && c[k].Holds(p)
  {
    if forall k :: 0 <= k < |c| ==> !c[k].Holds(p) {
      NextThroughout(n, c, ms, p);
    }
  }

  lemma {:induction false} SmallestWaiting(s: State, n: nat, k: nat) returns (p: nat)
    requires AllSane(s, n) && k <= n && exists j: nat :: j < k && Waiting(s.pc[j])
    ensures p < k && Waiting(s.pc[p])
    ensures forall j: nat :: j < k && j != p && Waiting(s.pc[j]) ==> Before(s, n, p, j)
  {
    if exists j: nat :: j < k - 1 && Waiting(s.pc[j]) {
      p := SmallestWaiting(s, n, k - 1);
      if Waiting(s.pc[k - 1]) && Before(s, n, k - 1, p) {
        p := k - 1;
      }
    } else {
      p := k - 1;
    }
  }

  /** No deadlock, in any run of the C text in which no ticket overflows. */
  lemma {:induction false} NeverDeadlocked(n: nat, b: seq<State>, ms: seq<Move>, t: nat, q: nat) returns (p: nat)
    requires Run(n, b, ms) && Spaced(n, b, ms) && t <= |ms| && q < n && !b[t].pc[q].Idle?
    requires forall j: nat :: j < n ==> !b[t].Holds(j)
    ensures p < n && !b[t].pc[p].Idle?
    ensures forall c :: Remaining(Step(b[t], n, Move(p, c)), n, p) < Remaining(b[t], n, p)
  {
    SaneAt(n, b, ms, t);
    p := NoDeadlock(b[t], n, q);
  }

  /** Whenever somebody is inside get and nobody holds the lock, some process inside
      get can take a step that brings it nearer to the lock. */
  lemma {:induction false} NoDeadlock(s: State, n: nat, q: nat) returns (p: nat)
    requires AllSane(s, n) && q < n && !s.pc[q].Idle?
    requires forall j: nat :: j < n ==> !s.Holds(j)
    ensures p < n && !s.pc[p].Idle?
    ensures forall c :: Remaining(Step(s, n, Move(p, c)), n, p) < Remaining(s, n, p)
  {
    if j: nat :| j < n && (Doorway(s.pc[j]) || s.pc[j].Choose?) {
      p := j;
    } else {
      assert !s.Holds(q);
      assert Waiting(s.pc[q]);
      p := SmallestWaiting(s, n, n);
      forall c ensures Remaining(Step(s, n, Move(p, c)), n, p) < Remaining(s, n, p) {
        NextAdvances(s, n, p, c);
      }
    }
  }
}
