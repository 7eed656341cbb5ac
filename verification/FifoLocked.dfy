/** The ring buffer with any number of writers, guarded by the bakery lock.

    Slots of the semaphore go to the writers and the reader by their first use of it
    (src/fcmanager/fc_semaphore.c:23-44), so the reader may have any slot among the first ones; the
    writers have the others, in order.  A process that is to take or give back the lock (ACQUIRE_LOCK,
    RELEASE_LOCK, src/fcmanager/fc_fifo.c:32-42) does so by its steps of the bakery algorithm, among
    which all other processes may step. */
module FifoLocked {
  import B = Bakery
  import BR = BakeryRuns
  import BT = BakeryThree
  import opened Fifo
  import FifoRuns

  /** `reader` is the slot of the reader. */
  datatype System = System(lock: B.State, fifo: State, reader: nat)

  /** A step of process x in the lock operations, or a step of the buffer. */
  datatype Act = Lock(x: nat) | Buffer(m: Move)

  predicate Built(s: System, n: nat) {
    Shaped(s.fifo) && s.reader <= |s.fifo.w| < n && s.lock.Shaped(n)
  }

  predicate WriterReleases(pc: WriterPc) {
    pc.WBackoff? || pc.WGiveUp? || pc.WRelease?
  }

  predicate ReaderReleases(pc: ReaderPc) {
    pc.RBackoff? || pc.RRelease? || pc.REnding?
  }

  /** What process x is doing: it is outside the lock operations unless it takes the lock or gives
      it back, and holds the lock where the buffer code relies on it. */
  datatype Phase = Away | Acquiring | Working | Releasing

  function WriterPhase(pc: WriterPc): Phase {
    if pc.WIdle? then Away else if pc.WAcquire? then Acquiring else if WriterReleases(pc) then Releasing else Working
  }

  function ReaderPhase(pc: ReaderPc): Phase {
    if pc.RConnect? || pc.REnd? then Away
    else if pc.RAcquire? then Acquiring
    else if ReaderReleases(pc) then Releasing
    else Working
  }

  /** The slot of writer i, and the writer in slot x, when r is the slot of the reader. */
  function SlotOf(r: nat, i: nat): nat {
    if i < r then i else i + 1
  }

  function WriterIn(r: nat, x: nat): nat
    requires x != r
  {
    if x < r then x else x - 1
  }

  /** The phase of the process in slot x. */
  function PhaseOf(f: State, r: nat, x: nat): Phase {
    if x == r then ReaderPhase(f.r)
    else if WriterIn(r, x) < |f.w| then WriterPhase(f.w[WriterIn(r, x)])
    else Away
  }

  predicate Has(s: System, x: nat) {
    x < |s.lock.pc| && s.lock.pc[x].Critical?
  }

  predicate Free(s: System, x: nat) {
    x < |s.lock.pc| && s.lock.pc[x].Idle?
  }

  /** Process x may go on in the buffer code: with the lock once it has been taken, and when it has
      been given back. */
  predicate Ready(s: System, x: nat) {
    match PhaseOf(s.fifo, s.reader, x)
    case Acquiring => Has(s, x)
    case Releasing => Free(s, x)
    case _ => true
  }

  function LockMove(s: System, x: nat): B.Move {
    B.Move(x, if PhaseOf(s.fifo, s.reader, x).Acquiring? then B.Get else B.Put)
  }

  predicate Enabled(s: System, n: nat, a: Act)
    requires Built(s, n)
  {
    match a
    case Lock(x) => x < n && !Ready(s, x)
    case Buffer(Writer(w, _, _)) => w < |s.fifo.w| && Ready(s, SlotOf(s.reader, w))
    case Buffer(Reader) => Ready(s, s.reader)
    case Buffer(_) => true
  }

  function Step(s: System, n: nat, a: Act): (t: System)
    requires Built(s, n) && Enabled(s, n, a)
    ensures Built(t, n)
  {
    match a
    case Lock(x) => s.(lock := B.Step(s.lock, n, LockMove(s, x)))
    case Buffer(m) => s.(fifo := Fifo.Step(s.fifo, m))
  }

  // ---------------------------------------------------------------- the invariant

  /** Nobody nests the lock, and each process is where its phase says. */
  ghost predicate InPhase(s: System, n: nat, x: nat)
    requires Built(s, n) && x < n
  {
    var pc := s.lock.pc[x];
    && !pc.NestRead? && !pc.NestWrite? && !pc.UnnestRead? && !pc.UnnestWrite?
    && match PhaseOf(s.fifo, s.reader, x)
       case Away => pc.Idle?
       case Acquiring => !pc.Release?
       case Working => pc.Critical?
       case Releasing => pc.Critical? || pc.Release? || pc.Idle?
  }

  /** Whatever the lock does. */
  ghost predicate Phased(s: System, n: nat) {
    && Built(s, n) && s.lock.sem.recursive == 0
    && forall x: nat :: x < n ==> InPhase(s, n, x) && (s.lock.pc[x].Idle? ==> s.lock.sem.number[x] == 0)
  }

  ghost predicate Inv(s: System, n: nat) {
    Phased(s, n) && Fifo.Inv(s.fifo)
  }

  /** At most one process holds the lock. */
  ghost predicate Exclusive(s: System) {
    forall p: nat, q: nat :: s.lock.Holds(p) && s.lock.Holds(q) ==> p == q
  }

  /** Mutual exclusion of the lock keeps all writers but one out of the buffer, and out of it
      altogether while the reader works. */
  lemma {:induction false} OneWorks(s: System, n: nat, x: nat, y: nat)
    requires Phased(s, n) && Exclusive(s) && x < n && y < n
    requires PhaseOf(s.fifo, s.reader, x).Working? && PhaseOf(s.fifo, s.reader, y).Working?
    ensures x == y
  {
    assert InPhase(s, n, x) && InPhase(s, n, y);
    assert s.lock.Holds(x) && s.lock.Holds(y);
  }

  lemma {:induction false} LockedOneInside(s: System, n: nat)
    requires Phased(s, n) && Exclusive(s)
    ensures OneInside(s.fifo)
  {
    forall i, j | 0 <= i < |s.fifo.w| && 0 <= j < |s.fifo.w| && Inside(s.fifo.w[i]) && Inside(s.fifo.w[j])
      ensures i == j
    {
      OneWorks(s, n, SlotOf(s.reader, i), SlotOf(s.reader, j));
    }
  }

  lemma {:induction false} LockKeepsPhase(s: System, n: nat, x: nat)
    requires Phased(s, n) && Enabled(s, n, Lock(x))
    ensures Phased(Step(s, n, Lock(x)), n)
  {
    assert InPhase(s, n, x);
    var t := Step(s, n, Lock(x));
    assert InPhase(t, n, x) && t.lock.sem.recursive == 0;
    forall y: nat | y < n && y != x ensures InPhase(t, n, y) && (t.lock.pc[y].Idle? ==> t.lock.sem.number[y] == 0) {
      assert InPhase(s, n, y);
    }
  }

  lemma {:induction false} BufferKeepsPhase(s: System, n: nat, m: Move)
    requires Phased(s, n) && Enabled(s, n, Buffer(m))
    ensures Phased(Step(s, n, Buffer(m)), n)
  {
    var t := Step(s, n, Buffer(m));
    forall x: nat | x < n ensures InPhase(t, n, x) && (t.lock.pc[x].Idle? ==> t.lock.sem.number[x] == 0) {
      assert InPhase(s, n, x);
      PhaseAfter(s.fifo, s.reader, m, x);
    }
  }

  /** What a step of the buffer does to the phase of a process. */
  lemma {:induction false} PhaseAfter(f: State, r: nat, m: Move, x: nat)
    requires Shaped(f)
    ensures var g := Fifo.Step(f, m);
      && |g.w| == |f.w|
      && (PhaseOf(g, r, x) == PhaseOf(f, r, x)
          || (m.Writer? && m.w < |f.w| && x == SlotOf(r, m.w) && Follows(PhaseOf(f, r, x), PhaseOf(g, r, x)))
          || (m.Reader? && x == r && Follows(PhaseOf(f, r, x), PhaseOf(g, r, x))))
  {
  }

  /** The phases of a process follow each other in a circle; the reader releases and acquires again. */
  predicate Follows(p: Phase, q: Phase) {
    match p
    case Away => q.Acquiring?
    case Acquiring => q.Working?
    case Working => q.Releasing?
    case Releasing => q.Away? || q.Acquiring?
  }

  lemma {:induction false} InvStep(s: System, n: nat, a: Act)
    requires Inv(s, n) && OneInside(s.fifo) && Enabled(s, n, a)
    ensures Inv(Step(s, n, a), n)
  {
    match a
    case Lock(x) =>
      LockKeepsPhase(s, n, x);
    case Buffer(m) =>
      BufferKeepsPhase(s, n, m);
      Fifo.InvStep(s.fifo, m);
  }

  // ---------------------------------------------------------------- runs

  ghost predicate Run(n: nat, size: nat, b: seq<System>, acts: seq<Act>) {
    && |b| == |acts| + 1 && size > 0
    && Built(b[0], n) && b[0].lock == B.Init(n) && Initial(b[0].fifo, size)
    && (forall k :: 0 <= k < |b| ==> Built(b[k], n))
    && (forall k :: 0 <= k < |acts| ==> Enabled(b[k], n, acts[k]) && b[k + 1] == Step(b[k], n, acts[k]))
  }

  /** No two processes ever hold the lock at once. */
  ghost predicate LockExcludes(b: seq<System>) {
    forall t :: 0 <= t < |b| ==> Exclusive(b[t])
  }

  /** No two writers are ever inside the buffer at once. */
  ghost predicate AlwaysOneInside(b: seq<System>) {
    forall t :: 0 <= t < |b| ==> OneInside(b[t].fifo)
  }

  lemma {:induction false} InvAt(n: nat, size: nat, b: seq<System>, acts: seq<Act>, t: nat)
    requires Run(n, size, b, acts) && AlwaysOneInside(b) && t <= |acts|
    ensures Inv(b[t], n)
  {
    if t == 0 {
      InitialInv(b[0].fifo, size);
    } else {
      InvAt(n, size, b, acts, t - 1);
      InvStep(b[t - 1], n, acts[t - 1]);
    }
  }

  /** With any number of writers, as long as one of them is inside the buffer at a time, it delivers the
      published messages in order, each once, and each writer's messages in its own order.  That the
      reader is not inside at the same time is not needed. */
  lemma {:induction false} LockedModeDelivers(n: nat, size: nat, b: seq<System>, acts: seq<Act>, t: nat)
    requires Run(n, size, b, acts) && AlwaysOneInside(b) && t <= |acts|
    ensures FifoRuns.Delivers(b[t].fifo)
  {
    InvAt(n, size, b, acts, t);
    FifoRuns.InvDelivers(b[t].fifo);
  }

  lemma {:induction false} EndStays(s: System, n: nat, a: Act)
    requires Inv(s, n) && Enabled(s, n, a) && s.fifo.r.REnd?
    ensures var t := Step(s, n, a); t.fifo.r.REnd? && t.fifo.published == s.fifo.published
  {
    if a.Buffer? {
      FifoRuns.EndIsFinal(s.fifo, a.m);
    }
  }

  lemma {:induction false} EndStaysAt(n: nat, size: nat, b: seq<System>, acts: seq<Act>, t: nat)
    requires Run(n, size, b, acts) && AlwaysOneInside(b) && t < |acts| && b[t].fifo.r.REnd?
    ensures b[t + 1].fifo.r.REnd? && b[t + 1].fifo.published == b[t].fifo.published
  {
    InvAt(n, size, b, acts, t);
    EndStays(b[t], n, acts[t]);
  }

  lemma {:induction false} EndLasts(n: nat, size: nat, b: seq<System>, acts: seq<Act>, t: nat, u: nat)
    requires Run(n, size, b, acts) && AlwaysOneInside(b) && t <= u <= |acts| && b[t].fifo.r.REnd?
    ensures b[u].fifo.published == b[t].fifo.published && b[u].fifo.r.REnd?
    decreases u - t
  {
    if t < u {
      EndStaysAt(n, size, b, acts, t);
      EndLasts(n, size, b, acts, t + 1, u);
    }
  }

  /** No writer's message is lost at the end of the stream, nor written after it. */
  lemma {:induction false} LockedModeEnd(n: nat, size: nat, b: seq<System>, acts: seq<Act>, t: nat, u: nat)
    requires Run(n, size, b, acts) && AlwaysOneInside(b) && t <= u <= |acts| && b[t].fifo.r.REnd?
    ensures FifoRuns.AllDelivered(b[t].fifo) && b[u].fifo.published == b[t].fifo.published && b[u].fifo.r.REnd?
  {
    InvAt(n, size, b, acts, t);
    FifoRuns.EndDelivers(b[t].fifo);
    EndLasts(n, size, b, acts, t, u);
  }

  lemma {:induction false} PhasedAt(n: nat, size: nat, b: seq<System>, acts: seq<Act>, t: nat)
    requires Run(n, size, b, acts) && t <= |acts|
    ensures Phased(b[t], n)
  {
    if t > 0 {
      PhasedAt(n, size, b, acts, t - 1);
      match acts[t - 1]
      case Lock(x) => LockKeepsPhase(b[t - 1], n, x);
      case Buffer(m) => BufferKeepsPhase(b[t - 1], n, m);
    }
  }

  /** The lock, as long as it excludes, lets one writer in at a time. */
  lemma {:induction false} LockKeepsOut(n: nat, size: nat, b: seq<System>, acts: seq<Act>)
    requires Run(n, size, b, acts) && LockExcludes(b)
    ensures AlwaysOneInside(b)
  {
    forall t | 0 <= t < |b| ensures OneInside(b[t].fifo) {
      PhasedAt(n, size, b, acts, t);
      LockedOneInside(b[t], n);
    }
  }

  // ---------------------------------------------------------------- the run of the lock

  /** The steps of the lock in the first t steps of the system, and the states of the lock between them. */
  function LockMoves(b: seq<System>, acts: seq<Act>, t: nat): seq<B.Move>
    requires t <= |acts| < |b|
  {
    if t == 0 then []
    else LockMoves(b, acts, t - 1) + if acts[t - 1].Lock? then [LockMove(b[t - 1], acts[t - 1].x)] else []
  }

  function LockStates(b: seq<System>, acts: seq<Act>, t: nat): seq<B.State>
    requires t <= |acts| < |b|
  {
    if t == 0 then [b[0].lock]
    else LockStates(b, acts, t - 1) + if acts[t - 1].Lock? then [b[t].lock] else []
  }

  /** They are a run of the lock. */
  lemma {:induction false} LockRuns(n: nat, size: nat, b: seq<System>, acts: seq<Act>, t: nat)
    requires Run(n, size, b, acts) && t <= |acts|
    ensures var lb, lms := LockStates(b, acts, t), LockMoves(b, acts, t);
      BR.Run(n, lb, lms) && lb[|lms|] == b[t].lock
  {
    if t > 0 {
      LockRuns(n, size, b, acts, t - 1);
      var lb, lms := LockStates(b, acts, t - 1), LockMoves(b, acts, t - 1);
      if acts[t - 1].Lock? {
        BR.RunMore(n, lb, lms, LockMove(b[t - 1], acts[t - 1].x));
      }
    }
  }

  lemma {:induction false} LockStatesGrow(b: seq<System>, acts: seq<Act>, t: nat, u: nat)
    requires t <= u <= |acts| < |b|
    ensures LockStates(b, acts, t) <= LockStates(b, acts, u)
  {
    if t < u {
      LockStatesGrow(b, acts, t, u - 1);
    }
  }

  lemma {:induction false} LockRunExcludes(n: nat, size: nat, b: seq<System>, acts: seq<Act>)
    requires Run(n, size, b, acts) && BR.Exclusive(LockStates(b, acts, |acts|))
    ensures LockExcludes(b)
  {
    var all := LockStates(b, acts, |acts|);
    forall t | 0 <= t < |b| ensures Exclusive(b[t]) {
      LockRuns(n, size, b, acts, t);
      LockStatesGrow(b, acts, t, |acts|);
      assert all[|LockMoves(b, acts, t)|] == b[t].lock;
    }
  }

  /** No ticket of the lock overflows. */
  ghost predicate LockSpaced(n: nat, b: seq<System>, acts: seq<Act>)
    requires |acts| < |b|
  {
    var lb, lms := LockStates(b, acts, |acts|), LockMoves(b, acts, |acts|);
    BR.Run(n, lb, lms) && BR.Spaced(n, lb, lms)
  }

  /** Comparing and copying a ticket is one read. */
  ghost predicate LockReadsOnce(n: nat, b: seq<System>, acts: seq<Act>)
    requires |acts| < |b|
  {
    var lb, lms := LockStates(b, acts, |acts|), LockMoves(b, acts, |acts|);
    BR.Run(n, lb, lms) && BR.ReadsOnce(n, lb, lms)
  }

  /** The intended lock, with one read of each ticket in the doorway, excludes for any number of writers. */
  lemma {:induction false} OneReadLocks(n: nat, size: nat, b: seq<System>, acts: seq<Act>)
    requires Run(n, size, b, acts) && LockSpaced(n, b, acts) && LockReadsOnce(n, b, acts)
    ensures LockExcludes(b)
  {
    LockRuns(n, size, b, acts, |acts|);
    var lb, lms := LockStates(b, acts, |acts|), LockMoves(b, acts, |acts|);
    forall t: nat, p: nat, q: nat | t < |lb| && lb[t].Holds(p) && lb[t].Holds(q) ensures p == q {
      BR.OneReadExclusion(n, lb, lms, t, p, q);
    }
    LockRunExcludes(n, size, b, acts);
  }

  lemma {:induction false} LockMovers(n: nat, size: nat, b: seq<System>, acts: seq<Act>, t: nat)
    requires Run(n, size, b, acts) && t <= |acts|
    ensures |b[t].fifo.w| == |b[0].fifo.w|
    ensures forall k :: 0 <= k < |LockMoves(b, acts, t)| ==> LockMoves(b, acts, t)[k].p <= |b[0].fifo.w|
  {
    if t > 0 {
      LockMovers(n, size, b, acts, t - 1);
      if acts[t - 1].Buffer? {
        PhaseAfter(b[t - 1].fifo, b[t - 1].reader, acts[t - 1].m, 0);
      }
    }
  }

  /** The lock of the C text, with its two reads, excludes when there are at most two writers beside
      the reader. */
  lemma {:induction false} TwoWritersLock(n: nat, size: nat, b: seq<System>, acts: seq<Act>)
    requires Run(n, size, b, acts) && LockSpaced(n, b, acts) && |b[0].fifo.w| <= 2
    ensures LockExcludes(b)
  {
    LockRuns(n, size, b, acts, |acts|);
    LockMovers(n, size, b, acts, |acts|);
    var lb, lms := LockStates(b, acts, |acts|), LockMoves(b, acts, |acts|);
    BT.FewMovers(lms, 3);
    BT.ThreeExclude(n, lb, lms);
    LockRunExcludes(n, size, b, acts);
  }
}
