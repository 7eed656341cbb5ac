/** The reader comes to the end of the stream also when it takes the lock of the C text for every access
    (src/fcmanager/fc_fifo.c:32-42, 202-278, src/fcmanager/fc_semaphore.c:47-106). */
module FifoLockedEnd {
  import B = Bakery
  import BR = BakeryRuns
  import F = Fifo
  import FifoRuns
  import FifoCalls
  import opened FifoLocked

  /** What the reader does next. */
  function ReaderAct(s: System): Act {
    if Ready(s, s.reader) then Buffer(F.Reader) else Lock(s.reader)
  }

  function ReaderAlone(s: System, n: nat, k: nat): (t: System)
    requires Built(s, n)
    ensures Built(t, n)
    decreases k
  {
    if k == 0 then s else ReaderAlone(Step(s, n, ReaderAct(s)), n, k - 1)
  }

  /** The ticket that p is choosing will not overflow. */
  predicate TicketFits(l: B.State, p: nat)
    requires p < |l.pc| && p < |l.sem.number|
  {
    B.Ticketed(l.pc[p]) || (l.sem.number[p] < B.SHORT_MAX && (l.pc[p].Store? ==> l.pc[p].v < B.SHORT_MAX))
  }

  /** No client is attached any more. */
  ghost predicate Deserted(s: System, n: nat) {
    && Inv(s, n) && B.AllSane(s.lock, n) && F.NoClient(s.fifo)
    && TicketFits(s.lock, s.reader)
  }

  /** The others are outside the lock operations, without a ticket. */
  lemma {:induction false} OthersAway(s: System, n: nat, x: nat)
    requires Deserted(s, n) && x < n && x != s.reader
    ensures s.lock.pc[x].Idle? && s.lock.sem.number[x] == 0 && !s.lock.sem.choosing[x]
  {
    FifoCalls.NobodyInside(s.fifo);
    assert InPhase(s, n, x) && B.Sane(s.lock, n, x);
  }

  /** The steps of the lock before the reader may go on. */
  function LockLeft(s: System, n: nat): int
    requires Built(s, n)
  {
    if Ready(s, s.reader) then 0
    else if PhaseOf(s.fifo, s.reader, s.reader).Acquiring? then BR.Remaining(s.lock, n, s.reader)
    else if s.lock.pc[s.reader].Critical? then 2 else 1
  }

  lemma {:induction false} LockLeftBound(s: System, n: nat)
    requires Deserted(s, n)
    ensures 0 <= LockLeft(s, n) <= 8 * n + 6 && (LockLeft(s, n) == 0 <==> Ready(s, s.reader))
  {
    assert InPhase(s, n, s.reader);
  }

  /** All but p are outside, without a ticket. */
  ghost predicate OnlyOne(l: B.State, n: nat, p: nat) {
    && B.AllSane(l, n) && p < n && B.Small(l, n, B.Move(p, B.Get))
    && forall x: nat :: x < n && x != p ==> l.pc[x].Idle? && l.sem.number[x] == 0 && !l.sem.choosing[x]
  }

  /** Then every step of p brings it nearer to the lock. */
  lemma {:induction false} GetNears(l: B.State, n: nat, p: nat)
    requires OnlyOne(l, n, p) && !l.Holds(p)
    ensures var t := B.Step(l, n, B.Move(p, B.Get));
      t.pc[p].Critical? || 0 < BR.Remaining(t, n, p) < BR.Remaining(l, n, p)
  {
    assert B.Sane(l, n, p);
  }

  lemma {:induction false} LockKeepsDeserted(s: System, n: nat)
    requires Deserted(s, n) && !Ready(s, s.reader)
    ensures OnlyOne(s.lock, n, s.reader) && Deserted(Step(s, n, Lock(s.reader)), n)
  {
    var r := s.reader;
    FifoCalls.NobodyInside(s.fifo);
    InvStep(s, n, Lock(r));
    forall x: nat | x < n && x != r ensures s.lock.pc[x].Idle? && s.lock.sem.number[x] == 0 && !s.lock.sem.choosing[x] {
      OthersAway(s, n, x);
    }
    B.SaneStep(s.lock, n, LockMove(s, r));
    TicketStillFits(s, n);
  }

  lemma {:induction false} TicketStillFits(s: System, n: nat)
    requires Deserted(s, n) && !Ready(s, s.reader) && OnlyOne(s.lock, n, s.reader)
    ensures TicketFits(Step(s, n, Lock(s.reader)).lock, s.reader)
  {
    assert InPhase(s, n, s.reader) && B.Sane(s.lock, n, s.reader);
  }

  /** With the others away, every step of the lock brings the reader nearer. */
  lemma {:induction false} LockNears(s: System, n: nat)
    requires Deserted(s, n) && !Ready(s, s.reader)
    ensures var t := Step(s, n, Lock(s.reader)); Deserted(t, n) && LockLeft(t, n) < LockLeft(s, n) && t.fifo == s.fifo
  {
    LockKeepsDeserted(s, n);
    assert InPhase(s, n, s.reader);
    if PhaseOf(s.fifo, s.reader, s.reader).Acquiring? {
      GetNears(s.lock, n, s.reader);
    }
  }

  lemma {:induction false} BufferNears(s: System, n: nat)
    requires Deserted(s, n) && Ready(s, s.reader) && !s.fifo.r.REnd?
    ensures var t := Step(s, n, Buffer(F.Reader));
      && Deserted(t, n) && t.fifo.published == s.fifo.published
      && FifoCalls.Left(t.fifo.r, t.fifo.ctl.numData) == FifoCalls.Left(s.fifo.r, s.fifo.ctl.numData) - 1
  {
    FifoCalls.NobodyInside(s.fifo);
    FifoCalls.ReaderNears(s.fifo);
    InvStep(s, n, Buffer(F.Reader));
  }

  /** The steps of the reader, in the lock and in the buffer, to the end. */
  function AllLeft(s: System, n: nat): int
    requires Built(s, n)
  {
    FifoCalls.Left(s.fifo.r, s.fifo.ctl.numData) * (8 * n + 7) + LockLeft(s, n)
  }

  lemma {:induction false} LeftIsPositive(s: System, n: nat)
    requires Deserted(s, n)
    ensures FifoCalls.Left(s.fifo.r, s.fifo.ctl.numData) >= 0 && AllLeft(s, n) >= 0
    ensures s.fifo.r.REnd? ==> Ready(s, s.reader)
  {
    LockLeftBound(s, n);
    Product(FifoCalls.Left(s.fifo.r, s.fifo.ctl.numData), 8 * n + 7);
  }

  lemma {:induction false} Product(a: int, b: int)
    requires a >= 0 && b >= 0
    ensures a * b >= 0 && (a + 1) * b == a * b + b
  {
  }

  lemma {:induction false} BufferLessens(s: System, n: nat)
    requires Deserted(s, n) && Ready(s, s.reader) && !s.fifo.r.REnd?
    ensures AllLeft(Step(s, n, Buffer(F.Reader)), n) < AllLeft(s, n)
  {
    var t := Step(s, n, Buffer(F.Reader));
    BufferNears(s, n);
    LockLeftBound(s, n);
    LockLeftBound(t, n);
    LeftIsPositive(t, n);
    Product(FifoCalls.Left(t.fifo.r, t.fifo.ctl.numData), 8 * n + 7);
  }

  /** Every step of the reader brings it nearer to the end. */
  lemma {:induction false} ReaderNears(s: System, n: nat)
    requires Deserted(s, n) && !s.fifo.r.REnd?
    ensures var t := Step(s, n, ReaderAct(s));
      Deserted(t, n) && t.fifo.published == s.fifo.published && AllLeft(t, n) < AllLeft(s, n)
  {
    if Ready(s, s.reader) {
      BufferNears(s, n);
      BufferLessens(s, n);
    } else {
      LockNears(s, n);
    }
  }

  /** When no client is attached any more, the reader comes to report the end of the stream, however far it
      has got with the lock, in at most so many steps; by then every message has been delivered. */
  lemma {:induction false} EndIsReached(s: System, n: nat) returns (k: nat)
    requires Deserted(s, n)
    ensures k <= AllLeft(s, n)
    ensures var t := ReaderAlone(s, n, k);
      t.fifo.r.REnd? && t.fifo.published == s.fifo.published && FifoRuns.AllDelivered(t.fifo)
    decreases AllLeft(s, n)
  {
    LeftIsPositive(s, n);
    if s.fifo.r.REnd? {
      FifoRuns.EndDelivers(s.fifo);
      k := 0;
    } else {
      ReaderNears(s, n);
      k := EndIsReached(Step(s, n, ReaderAct(s)), n);
      k := k + 1;
    }
  }

  lemma {:induction false} Larger(a: int, m: int, b: nat)
    requires a <= m
    ensures a * b <= m * b
  {
    Product(m - a, b);
    assert m * b == a * b + (m - a) * b;
  }

  lemma {:induction false} LeftBound(s: System, n: nat)
    requires Deserted(s, n)
    ensures AllLeft(s, n) <= (7 * s.fifo.ctl.numData + 8) * (8 * n + 7)
  {
    var left, k := FifoCalls.Left(s.fifo.r, s.fifo.ctl.numData), 8 * n + 7;
    LockLeftBound(s, n);
    Larger(left, 7 * s.fifo.ctl.numData + 7, k);
    Product(7 * s.fifo.ctl.numData + 7, k);
  }

  lemma {:induction false} LockSaneAt(n: nat, size: nat, b: seq<System>, acts: seq<Act>, t: nat)
    requires Run(n, size, b, acts) && LockSpaced(n, b, acts) && t <= |acts|
    ensures B.AllSane(b[t].lock, n)
  {
    LockRuns(n, size, b, acts, t);
    LockStatesGrow(b, acts, t, |acts|);
    BR.SaneAt(n, LockStates(b, acts, |acts|), LockMoves(b, acts, |acts|), |LockMoves(b, acts, t)|);
  }

  /** The same at every moment of a run in which one writer at a time is inside the buffer and no ticket
      overflows. */
  lemma {:induction false} RunEndIsReached(n: nat, size: nat, b: seq<System>, acts: seq<Act>, t: nat)
    returns (k: nat)
    requires Run(n, size, b, acts) && AlwaysOneInside(b) && LockSpaced(n, b, acts) && t <= |acts|
    requires F.NoClient(b[t].fifo) && TicketFits(b[t].lock, b[t].reader)
    ensures k <= (7 * b[t].fifo.ctl.numData + 8) * (8 * n + 7)
    ensures var e := ReaderAlone(b[t], n, k);
      e.fifo.r.REnd? && e.fifo.published == b[t].fifo.published && FifoRuns.AllDelivered(e.fifo)
  {
    InvAt(n, size, b, acts, t);
    LockSaneAt(n, size, b, acts, t);
    LeftBound(b[t], n);
    k := EndIsReached(b[t], n);
  }
}
