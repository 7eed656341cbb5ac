/** How many writers the lock of the ring buffer can serve (src/fcmanager/fc_fifo.c:32-42, 202-339,
    src/fcmanager/fc_semaphore.c:47-106).

    Any run of the lock in which nobody nests is part of a run of the whole system: between the steps of
    the lock the processes go through the buffer.  So the run of BakeryTwoReads, by three writers and
    the reader, or by four writers, brings two writers into the buffer at once. */
module FifoThreeWriters {
  import B = Bakery
  import BR = BakeryRuns
  import BW = BakeryTwoReads
  import BL = BakeryLastTwo
  import F = Fifo
  import FifoRuns
  import opened FifoLocked

  // ---------------------------------------------------------------- the lock

  /** Nobody nests. */
  predicate Plain(s: B.State, n: nat) {
    && s.Shaped(n) && s.sem.recursive == 0
    && forall p: nat :: p < n ==> PlainPc(s.pc[p]) && (s.pc[p].Idle? ==> s.sem.number[p] == 0)
  }

  predicate PlainPc(pc: B.Pc) {
    !pc.NestRead? && !pc.NestWrite? && !pc.UnnestRead? && !pc.UnnestWrite?
  }

  lemma {:induction false} PlainStep(s: B.State, n: nat, m: B.Move)
    requires Plain(s, n) && m.p < n && m.call.Put?
    ensures Plain(B.Step(s, n, m), n)
  {
  }

  /** Only a holder is asked whether it gets or puts. */
  lemma {:induction false} SameStep(s: B.State, n: nat, x: nat, c: B.Call, d: B.Call)
    requires s.Shaped(n) && x < n && (s.pc[x].Critical? ==> c == d)
    ensures B.Step(s, n, B.Move(x, c)) == B.Step(s, n, B.Move(x, d))
  {
  }

  // ---------------------------------------------------------------- the buffer

  /** All writers belong to the client that has made the buffer, which stays. */
  predicate Going(f: F.State, w: nat) {
    && F.Shaped(f) && |f.w| == w && f.clients == [F.Attached]
    && f.ctl.refCount == (if f.r.RConnect? then 1 else 2)
    && !f.r.RSecond? && !f.r.REnding? && !f.r.REnd?
  }

  /** The step in the buffer code of the process in slot x, when r is the reader's. */
  function MoveOf(r: nat, x: nat): F.Move {
    if x == r then F.Reader else F.Writer(WriterIn(r, x), false, 0)
  }

  function NewBuffer(size: nat, w: nat): (f: F.State)
    requires size > 0
    ensures F.Initial(f, size) && Going(f, w) && |f.ctl.data| == size
    ensures forall r: nat, x: nat :: PhaseOf(f, r, x).Away?
  {
    F.State(F.Control(seq(size, _ => F.Message(0, 0)), 0, 0, 0, 1), seq(w, _ => F.WIdle), F.RConnect, [F.Attached],
            seq(w, _ => 0), [], [], 0, seq(w, _ => []))
  }

  /** How far a process that has the lock is from giving it back. */
  function Left(f: F.State, r: nat, x: nat): nat {
    if x == r then
      match f.r
      case RAcquire => 7
      case RTest => 6
      case RAlone => 5
      case RSlot => 5
      case RRead(_) => 4
      case RCount(_) => 3
      case RIndex => 2
      case _ => 0
    else if WriterIn(r, x) < |f.w| then
      match f.w[WriterIn(r, x)]
      case WAcquire(_) => 7
      case WTest(_) => 6
      case WAlone(_) => 5
      case WSlot(_) => 5
      case WFill(_, _) => 4
      case WCount(_, _) => 3
      case WIndex => 2
      case _ => 0
    else 0
  }

  /** It may still count a message. */
  predicate Counts(f: F.State, r: nat, x: nat) {
    PhaseOf(f, r, x).Acquiring? || (PhaseOf(f, r, x).Working? && Left(f, r, x) >= 3)
  }

  /** A step of process x from f to g brings it on. */
  predicate BringsOn(f: F.State, g: F.State, w: nat, r: nat, x: nat) {
    var p, q := PhaseOf(f, r, x), PhaseOf(g, r, x);
    && Going(g, w)
    && (p.Away? ==> q.Acquiring?)
    && (p.Releasing? ==> q.Acquiring? || q.Away?)
    && (p.Acquiring? ==> q.Working?)
    && (p.Acquiring? || p.Working? ==>
          && (q.Working? || q.Releasing?) && Left(g, r, x) < Left(f, r, x)
          && g.ctl.numData + (if Counts(g, r, x) then 1 else 0) <= f.ctl.numData + (if Counts(f, r, x) then 1 else 0))
    && (p.Away? || p.Releasing? ==> g.ctl.numData == f.ctl.numData)
    && |g.ctl.data| == |f.ctl.data|
  }

  lemma {:induction false} WriterGoes(f: F.State, w: nat, r: nat, x: nat)
    requires Going(f, w) && x != r && WriterIn(r, x) < w
    ensures BringsOn(f, F.Step(f, MoveOf(r, x)), w, r, x)
  {
    assert f.owner[WriterIn(r, x)] < |f.clients| == 1;
  }

  lemma {:induction false} ReaderGoes(f: F.State, w: nat, r: nat)
    requires Going(f, w)
    ensures BringsOn(f, F.Step(f, F.Reader), w, r, r)
  {
  }

  lemma {:induction false} ProcessGoes(f: F.State, w: nat, r: nat, x: nat)
    requires Going(f, w) && x <= w && r <= w
    ensures BringsOn(f, F.Step(f, MoveOf(r, x)), w, r, x)
  {
    if x == r {
      ReaderGoes(f, w, r);
    } else {
      WriterGoes(f, w, r, x);
    }
  }

  /** The other processes stay in their phases. */
  lemma {:induction false} OthersStay(f: F.State, w: nat, r: nat, x: nat)
    requires Going(f, w) && x <= w && r <= w
    ensures forall y: nat :: y != x ==> PhaseOf(F.Step(f, MoveOf(r, x)), r, y) == PhaseOf(f, r, y)
  {
    forall y: nat | y != x ensures PhaseOf(F.Step(f, MoveOf(r, x)), r, y) == PhaseOf(f, r, y) {
      PhaseAfter(f, r, MoveOf(r, x), y);
    }
  }

  // ---------------------------------------------------------------- runs of the system

  /** The run of the system takes the lock through the first t steps of its run. */
  ghost predicate Follows(n: nat, size: nat, w: nat, r: nat, b: seq<System>, acts: seq<Act>, lb: seq<B.State>,
      lms: seq<B.Move>, t: nat) {
    && t < |lb| && t <= |lms|
    && Run(n, size, b, acts) && |b[0].fifo.w| == w && b[0].reader == r
    && LockStates(b, acts, |acts|) == lb[..t + 1]
    && SameMovers(LockMoves(b, acts, |acts|), lms[..t])
  }

  predicate SameMovers(ms: seq<B.Move>, ns: seq<B.Move>) {
    |ms| == |ns| && forall k :: 0 <= k < |ms| ==> ms[k].p == ns[k].p
  }

  ghost predicate Reached(n: nat, size: nat, w: nat, r: nat, s: System, lb: seq<B.State>, lms: seq<B.Move>, t: nat) {
    exists b: seq<System>, acts: seq<Act> :: Follows(n, size, w, r, b, acts, lb, lms, t) && b[|acts|] == s
  }

  lemma {:induction false} LockPrefix(b: seq<System>, acts: seq<Act>, c: seq<System>, bcts: seq<Act>, t: nat)
    requires t <= |acts| < |b| && |bcts| < |c| && b <= c && acts <= bcts
    ensures LockStates(c, bcts, t) == LockStates(b, acts, t) && LockMoves(c, bcts, t) == LockMoves(b, acts, t)
  {
    if t > 0 {
      LockPrefix(b, acts, c, bcts, t - 1);
      assert c[t] == b[t] && c[t - 1] == b[t - 1] && bcts[t - 1] == acts[t - 1];
    } else {
      assert c[0] == b[0];
    }
  }

  lemma {:induction false} RunMore(n: nat, size: nat, b: seq<System>, acts: seq<Act>, a: Act)
    requires Run(n, size, b, acts) && Enabled(b[|acts|], n, a)
    ensures Run(n, size, b + [Step(b[|acts|], n, a)], acts + [a])
  {
    var t := Step(b[|acts|], n, a);
    var c, bcts := b + [t], acts + [a];
    forall k | 0 <= k < |bcts| ensures Enabled(c[k], n, bcts[k]) && c[k + 1] == Step(c[k], n, bcts[k]) {
      if k < |acts| {
        assert c[k] == b[k] && c[k + 1] == b[k + 1] && bcts[k] == acts[k];
      }
    }
  }

  lemma {:induction false} ActMore(n: nat, size: nat, b: seq<System>, acts: seq<Act>, a: Act)
    requires Run(n, size, b, acts) && Enabled(b[|acts|], n, a)
    ensures var s := b[|acts|];
      var c, bcts := b + [Step(s, n, a)], acts + [a];
      && Run(n, size, c, bcts)
      && LockStates(c, bcts, |bcts|) == LockStates(b, acts, |acts|) + (if a.Lock? then [Step(s, n, a).lock] else [])
      && LockMoves(c, bcts, |bcts|) == LockMoves(b, acts, |acts|) + (if a.Lock? then [LockMove(s, a.x)] else [])
  {
    var c, bcts := b + [Step(b[|acts|], n, a)], acts + [a];
    RunMore(n, size, b, acts, a);
    LockPrefix(b, acts, c, bcts, |acts|);
    assert c[|acts|] == b[|acts|] && bcts[|acts|] == a && c[|bcts|] == Step(b[|acts|], n, a);
  }

  lemma {:induction false} FollowsBuffer(n: nat, size: nat, w: nat, r: nat, b: seq<System>, acts: seq<Act>,
      lb: seq<B.State>,
      lms: seq<B.Move>, t: nat, m: F.Move)
    requires Follows(n, size, w, r, b, acts, lb, lms, t) && Enabled(b[|acts|], n, Buffer(m))
    ensures Follows(n, size, w, r, b + [Step(b[|acts|], n, Buffer(m))], acts + [Buffer(m)], lb, lms, t)
  {
    ActMore(n, size, b, acts, Buffer(m));
    assert (b + [Step(b[|acts|], n, Buffer(m))])[0] == b[0];
  }

  lemma {:induction false} BufferMore(n: nat, size: nat, w: nat, r: nat, s: System, lb: seq<B.State>, lms: seq<B.Move>,
      t: nat, m: F.Move)
    requires Reached(n, size, w, r, s, lb, lms, t) && Built(s, n) && Enabled(s, n, Buffer(m))
    ensures Reached(n, size, w, r, Step(s, n, Buffer(m)), lb, lms, t)
  {
    var b: seq<System>, acts: seq<Act> :| Follows(n, size, w, r, b, acts, lb, lms, t) && b[|acts|] == s;
    FollowsBuffer(n, size, w, r, b, acts, lb, lms, t, m);
    assert (b + [Step(s, n, Buffer(m))])[|acts + [Buffer(m)]|] == Step(s, n, Buffer(m));
  }

  lemma {:induction false} MoversMore(ms: seq<B.Move>, m: B.Move, ns: seq<B.Move>, t: nat)
    requires t < |ns| && SameMovers(ms, ns[..t]) && m.p == ns[t].p
    ensures SameMovers(ms + [m], ns[..t + 1])
  {
    assert ns[..t + 1] == ns[..t] + [ns[t]];
  }

  lemma {:induction false} FollowsMore(n: nat, size: nat, w: nat, r: nat, b: seq<System>, acts: seq<Act>,
      lb: seq<B.State>,
      lms: seq<B.Move>, t: nat, x: nat)
    requires Follows(n, size, w, r, b, acts, lb, lms, t) && Enabled(b[|acts|], n, Lock(x))
    requires t < |lms| && t + 1 < |lb| && lms[t].p == x && Step(b[|acts|], n, Lock(x)).lock == lb[t + 1]
    ensures Follows(n, size, w, r, b + [Step(b[|acts|], n, Lock(x))], acts + [Lock(x)], lb, lms, t + 1)
  {
    ActMore(n, size, b, acts, Lock(x));
    assert lb[..t + 2] == lb[..t + 1] + [lb[t + 1]];
    MoversMore(LockMoves(b, acts, |acts|), LockMove(b[|acts|], x), lms, t);
    assert (b + [Step(b[|acts|], n, Lock(x))])[0] == b[0];
  }

  lemma {:induction false} LockMore(n: nat, size: nat, w: nat, r: nat, s: System, lb: seq<B.State>, lms: seq<B.Move>,
      t: nat, x: nat)
    requires Reached(n, size, w, r, s, lb, lms, t) && Built(s, n) && Enabled(s, n, Lock(x))
    requires t < |lms| && t + 1 < |lb| && lms[t].p == x && Step(s, n, Lock(x)).lock == lb[t + 1]
    ensures Reached(n, size, w, r, Step(s, n, Lock(x)), lb, lms, t + 1)
  {
    var b: seq<System>, acts: seq<Act> :| Follows(n, size, w, r, b, acts, lb, lms, t) && b[|acts|] == s;
    FollowsMore(n, size, w, r, b, acts, lb, lms, t, x);
    assert (b + [Step(s, n, Lock(x))])[|acts + [Lock(x)]|] == Step(s, n, Lock(x));
  }

  // ---------------------------------------------------------------- the lock and the buffer together

  /** Where a process of the lock is in the buffer code.  One that has got the lock has not gone on yet,
      and one that has given it back may not have. */
  predicate Fits(pc: B.Pc, phase: Phase) {
    if pc.Idle? then phase.Away? || phase.Releasing?
    else if pc.Release? then phase.Releasing?
    else phase.Acquiring?
  }

  predicate Together(s: System, n: nat, w: nat, r: nat) {
    && Built(s, n) && s.reader == r && w < n && Going(s.fifo, w) && Plain(s.lock, n)
    && forall y: nat :: y < n ==> Fits(s.lock.pc[y], PhaseOf(s.fifo, r, y))
  }

  /** The same, but for process x, which is in the given phase. */
  predicate But(s: System, n: nat, w: nat, r: nat, x: nat, phase: Phase) {
    && Built(s, n) && s.reader == r && w < n && Going(s.fifo, w) && Plain(s.lock, n)
    && PhaseOf(s.fifo, r, x) == phase
    && forall y: nat :: y < n && y != x ==> Fits(s.lock.pc[y], PhaseOf(s.fifo, r, y))
  }

  /** A step of x in the buffer code. */
  lemma {:induction false} Go(n: nat, size: nat, w: nat, r: nat, s: System, lb: seq<B.State>, lms: seq<B.Move>,
      t: nat, x: nat)
    returns (s': System)
    requires Reached(n, size, w, r, s, lb, lms, t) && x <= w && But(s, n, w, r, x, PhaseOf(s.fifo, r, x)) && Ready(s, x)
    ensures s' == s.(fifo := F.Step(s.fifo, MoveOf(r, x))) && Reached(n, size, w, r, s', lb, lms, t)
    ensures But(s', n, w, r, x, PhaseOf(s'.fifo, r, x))
  {
    BufferMore(n, size, w, r, s, lb, lms, t, MoveOf(r, x));
    s' := Step(s, n, Buffer(MoveOf(r, x)));
    OthersStay(s.fifo, w, r, x);
    ProcessGoes(s.fifo, w, r, x);
  }

  /** A process that is outside the lock goes on to take it. */
  lemma {:induction false} ToAcquire(n: nat, size: nat, w: nat, r: nat, s: System, lb: seq<B.State>, lms: seq<B.Move>,
      t: nat, x: nat)
    returns (s': System)
    requires Reached(n, size, w, r, s, lb, lms, t) && x <= w && Together(s, n, w, r) && s.lock.pc[x].Idle?
    ensures Reached(n, size, w, r, s', lb, lms, t) && But(s', n, w, r, x, Acquiring) && s'.lock == s.lock
    ensures s'.fifo.ctl.numData == s.fifo.ctl.numData && |s'.fifo.ctl.data| == |s.fifo.ctl.data|
  {
    ProcessGoes(s.fifo, w, r, x);
    s' := Go(n, size, w, r, s, lb, lms, t, x);
    if !PhaseOf(s'.fifo, r, x).Acquiring? {
      ProcessGoes(s'.fifo, w, r, x);
      s' := Go(n, size, w, r, s', lb, lms, t, x);
    }
  }

  /** A process that holds the lock goes through the buffer code, until it is to give the lock back. */
  lemma {:induction false} ToRelease(n: nat, size: nat, w: nat, r: nat, s: System, lb: seq<B.State>, lms: seq<B.Move>,
      t: nat, x: nat)
    returns (s': System)
    requires Reached(n, size, w, r, s, lb, lms, t) && x <= w && But(s, n, w, r, x, PhaseOf(s.fifo, r, x))
    requires s.lock.pc[x].Critical? && !PhaseOf(s.fifo, r, x).Away?
    ensures Reached(n, size, w, r, s', lb, lms, t) && But(s', n, w, r, x, Releasing) && s'.lock == s.lock
    ensures |s'.fifo.ctl.data| == |s.fifo.ctl.data|
    ensures s'.fifo.ctl.numData <= s.fifo.ctl.numData + if Counts(s.fifo, r, x) then 1 else 0
    decreases Left(s.fifo, r, x)
  {
    s' := s;
    if !PhaseOf(s.fifo, r, x).Releasing? {
      ProcessGoes(s.fifo, w, r, x);
      s' := Go(n, size, w, r, s, lb, lms, t, x);
      s' := ToRelease(n, size, w, r, s', lb, lms, t, x);
    }
  }

  lemma {:induction false} TogetherAgain(n: nat, w: nat, r: nat, s: System, m: B.Move)
    requires m.p < n && m.call.Put? && s.lock.Shaped(n)
    requires But(s, n, w, r, m.p, if s.lock.pc[m.p].Critical? || s.lock.pc[m.p].Release? then Releasing else Acquiring)
    ensures Together(s.(lock := B.Step(s.lock, n, m)), n, w, r)
  {
    PlainStep(s.lock, n, m);
  }

  /** A step of the lock by process x, when its phase is the one for it. */
  lemma {:induction false} LockStep(n: nat, size: nat, w: nat, r: nat, s: System, lb: seq<B.State>,
      lms: seq<B.Move>, t: nat)
    returns (s': System)
    requires t < |lms| && t + 1 < |lb| && lms[t].p < n && lms[t].call.Put?
    requires Reached(n, size, w, r, s, lb, lms, t) && s.lock == lb[t] && s.lock.Shaped(n)
    requires var pc := s.lock.pc[lms[t].p];
      But(s, n, w, r, lms[t].p, if pc.Critical? || pc.Release? then Releasing else Acquiring)
    requires lb[t + 1] == B.Step(lb[t], n, lms[t])
    ensures Reached(n, size, w, r, s', lb, lms, t + 1) && Together(s', n, w, r) && s'.lock == lb[t + 1]
    ensures s'.fifo == s.fifo
  {
    var x := lms[t].p;
    SameStep(s.lock, n, x, LockMove(s, x).call, B.Put);
    TogetherAgain(n, w, r, s, lms[t]);
    LockMore(n, size, w, r, s, lb, lms, t, x);
    s' := Step(s, n, Lock(x));
  }

  /** One step of the lock. */
  lemma {:induction false} Advance(n: nat, size: nat, w: nat, r: nat, s: System, lb: seq<B.State>,
      lms: seq<B.Move>, t: nat)
    returns (s': System)
    requires t < |lms| && t + 1 < |lb| && lms[t].p <= w && lms[t].call.Put?
    requires Reached(n, size, w, r, s, lb, lms, t) && Together(s, n, w, r) && s.lock == lb[t]
    requires lb[t + 1] == B.Step(lb[t], n, lms[t])
    ensures Reached(n, size, w, r, s', lb, lms, t + 1) && Together(s', n, w, r) && s'.lock == lb[t + 1]
    ensures |s'.fifo.ctl.data| == |s.fifo.ctl.data| && s'.fifo.ctl.numData <= s.fifo.ctl.numData + 1
  {
    var x := lms[t].p;
    if s.lock.pc[x].Idle? {
      s' := ToAcquire(n, size, w, r, s, lb, lms, t, x);
      s' := LockStep(n, size, w, r, s', lb, lms, t);
    } else if s.lock.pc[x].Critical? {
      s' := ToRelease(n, size, w, r, s, lb, lms, t, x);
      s' := LockStep(n, size, w, r, s', lb, lms, t);
    } else {
      s' := LockStep(n, size, w, r, s, lb, lms, t);
    }
  }

  /** Every run of the lock by the writers and the reader, in which nobody nests, is that of the lock in a
      run of the system. */
  lemma {:induction false} LockRunIsPart(n: nat, size: nat, w: nat, r: nat, lb: seq<B.State>, lms: seq<B.Move>, t: nat)
    returns (s: System)
    requires BR.Run(n, lb, lms) && BR.Putting(lms) && t <= |lms| && r <= w < n && size > 0
    requires forall k :: 0 <= k < |lms| ==> lms[k].p <= w
    ensures Reached(n, size, w, r, s, lb, lms, t) && Together(s, n, w, r) && s.lock == lb[t]
    ensures |s.fifo.ctl.data| == size && s.fifo.ctl.numData <= t
  {
    if t == 0 {
      s := System(B.Init(n), NewBuffer(size, w), r);
      var acts: seq<Act> := [];
      assert LockStates([s], acts, 0) == [lb[0]] == lb[..1] && LockMoves([s], acts, 0) == [] == lms[..0];
      assert Follows(n, size, w, r, [s], acts, lb, lms, 0) && [s][|acts|] == s;
    } else {
      s := LockRunIsPart(n, size, w, r, lb, lms, t - 1);
      s := Advance(n, size, w, r, s, lb, lms, t - 1);
    }
  }

  // ---------------------------------------------------------------- tickets

  lemma {:induction false} SameDoorways(n: nat, b: seq<B.State>, ms: seq<B.Move>, ns: seq<B.Move>, a: nat, t: nat)
    requires BR.Run(n, b, ms) && BR.Run(n, b, ns) && SameMovers(ms, ns) && a <= t <= |ms|
    ensures BR.Doorways(n, b, ms, a, t) == BR.Doorways(n, b, ns, a, t)
  {
    if a < t {
      SameDoorways(n, b, ms, ns, a, t - 1);
    }
  }

  lemma {:induction false} SameSpaced(n: nat, b: seq<B.State>, ms: seq<B.Move>, ns: seq<B.Move>)
    requires BR.Run(n, b, ms) && BR.Run(n, b, ns) && SameMovers(ms, ns) && BR.Spaced(n, b, ns)
    ensures BR.Spaced(n, b, ms)
  {
    forall t: nat | t <= |ms| ensures BR.Calm(n, b, ms, t) {
      assert BR.Calm(n, b, ns, t);
      var a: nat :| BR.RecentlyQuiet(n, b, ns, a, t);
      SameDoorways(n, b, ms, ns, a, t);
      assert BR.RecentlyQuiet(n, b, ms, a, t);
    }
  }

  // ---------------------------------------------------------------- runs that break the lock

  /** A writer that has the lock goes on to reserve a slot. */
  predicate Enters(f: F.State, g: F.State, i: nat)
    requires i < |f.w|
  {
    var pc := f.w[i];
    pc.WAcquire? || (pc.WTest? && f.ctl.numData < |f.ctl.data|) || pc.WSlot? ==>
      && g.ctl == f.ctl
      && g.w == f.w[i := if pc.WAcquire? then F.WTest(pc.m) else if pc.WTest? then F.WSlot(pc.m)
                         else F.WFill(pc.m, f.ctl.writeIdx)]
  }

  lemma {:induction false} WriterSteps(f: F.State, w: nat, i: nat)
    requires Going(f, w) && i < w
    ensures var g := F.Step(f, F.Writer(i, false, 0)); Going(g, w) && Enters(f, g, i)
  {
  }

  /** A writer at pc that has the lock, or may go on without looking at it. */
  predicate OnTheWay(pc: F.WriterPc, lock: B.Pc) {
    (pc.WAcquire? && lock.Critical?) || pc.WTest? || pc.WSlot?
  }

  lemma {:induction false} OnTheWayIsReady(s: System, n: nat, i: nat)
    requires Built(s, n) && i < |s.fifo.w| && OnTheWay(s.fifo.w[i], s.lock.pc[SlotOf(s.reader, i)])
    ensures Ready(s, SlotOf(s.reader, i))
  {
    assert WriterIn(s.reader, SlotOf(s.reader, i)) == i;
  }

  /** The phase of a writer tells where it is. */
  lemma {:induction false} Acquires(s: System, n: nat, w: nat, r: nat, i: nat)
    requires Together(s, n, w, r) && r <= w && i < w && s.lock.pc[SlotOf(r, i)].Critical?
    ensures s.fifo.w[i].WAcquire?
  {
    assert Fits(s.lock.pc[SlotOf(r, i)], PhaseOf(s.fifo, r, SlotOf(r, i)));
    assert WriterIn(r, SlotOf(r, i)) == i;
  }

  lemma {:induction false} WriterOn(n: nat, size: nat, w: nat, r: nat, s: System, lb: seq<B.State>,
      lms: seq<B.Move>, t: nat, i: nat)
    returns (s': System)
    requires Reached(n, size, w, r, s, lb, lms, t) && Built(s, n) && s.reader == r && Going(s.fifo, w) && i < w
    requires s.lock.Shaped(n) && OnTheWay(s.fifo.w[i], s.lock.pc[SlotOf(r, i)])
    ensures Reached(n, size, w, r, s', lb, lms, t) && s'.lock == s.lock && s'.reader == r
    ensures Built(s', n) && Going(s'.fifo, w) && Enters(s.fifo, s'.fifo, i)
  {
    OnTheWayIsReady(s, n, i);
    BufferMore(n, size, w, r, s, lb, lms, t, F.Writer(i, false, 0));
    WriterSteps(s.fifo, w, i);
    s' := Step(s, n, Buffer(F.Writer(i, false, 0)));
  }

  /** Two writers that both hold the lock go into the buffer. */
  lemma {:induction false} BothWork(n: nat, size: nat, w: nat, r: nat, s: System, lb: seq<B.State>,
      lms: seq<B.Move>, t: nat, i: nat, j: nat)
    returns (s': System)
    requires Reached(n, size, w, r, s, lb, lms, t) && Together(s, n, w, r) && r <= w && i < w && j < w && i != j
    requires s.lock.pc[SlotOf(r, i)].Critical? && s.lock.pc[SlotOf(r, j)].Critical?
    ensures Reached(n, size, w, r, s', lb, lms, t) && s'.lock == s.lock && s'.reader == r
    ensures Built(s', n) && Going(s'.fifo, w)
    ensures s'.fifo.w[i].WTest? && s'.fifo.w[j].WTest? && s'.fifo.ctl == s.fifo.ctl
  {
    Acquires(s, n, w, r, i);
    Acquires(s, n, w, r, j);
    s' := WriterOn(n, size, w, r, s, lb, lms, t, i);
    s' := WriterOn(n, size, w, r, s', lb, lms, t, j);
  }

  /** One of them reserves a slot. */
  lemma {:induction false} Reserves(n: nat, size: nat, w: nat, r: nat, s: System, lb: seq<B.State>,
      lms: seq<B.Move>, t: nat, i: nat)
    returns (s': System)
    requires Reached(n, size, w, r, s, lb, lms, t) && Built(s, n) && s.reader == r && Going(s.fifo, w) && i < w
    requires s.fifo.w[i].WTest? && s.fifo.ctl.numData < |s.fifo.ctl.data|
    ensures s'.lock == s.lock
    ensures Reached(n, size, w, r, s', lb, lms, t) && Built(s', n) && s'.reader == r && Going(s'.fifo, w)
    ensures s'.fifo.ctl == s.fifo.ctl && s'.fifo.w == s.fifo.w[i := F.WFill(s.fifo.w[i].m, s.fifo.ctl.writeIdx)]
  {
    var m, slot := s.fifo.w[i].m, s.fifo.ctl.writeIdx;
    s' := WriterOn(n, size, w, r, s, lb, lms, t, i);
    s' := WriterOn(n, size, w, r, s', lb, lms, t, i);
    assert s.fifo.w[i := F.WSlot(m)][i := F.WFill(m, slot)] == s.fifo.w[i := F.WFill(m, slot)];
  }

  /** A run of the system that takes the lock through all of its run. */
  lemma {:induction false} RunOf(n: nat, size: nat, w: nat, r: nat, s: System, lb: seq<B.State>, lms: seq<B.Move>)
    returns (b: seq<System>, acts: seq<Act>)
    requires BR.Run(n, lb, lms) && BR.Spaced(n, lb, lms) && Reached(n, size, w, r, s, lb, lms, |lms|)
    ensures Run(n, size, b, acts) && LockSpaced(n, b, acts) && Of(b[0], w, r) && b[|acts|] == s
  {
    b, acts :| Follows(n, size, w, r, b, acts, lb, lms, |lms|) && b[|acts|] == s;
    LockRuns(n, size, b, acts, |acts|);
    assert lb[..|lms| + 1] == lb && lms[..|lms|] == lms;
    SameSpaced(n, lb, LockMoves(b, acts, |acts|), lms);
  }

  /** A system of w writers, with the reader in slot r. */
  predicate Of(s: System, w: nat, r: nat) {
    |s.fifo.w| == w && s.reader == r
  }

  /** With three writers or more, wherever the reader is, two processes come to hold the lock of the C
      text. */
  lemma {:induction false} ThreeWritersBreak(n: nat, size: nat, w: nat, r: nat)
    returns (b: seq<System>, acts: seq<Act>)
    requires 3 <= w < n && r <= w && size > 0
    ensures Run(n, size, b, acts) && LockSpaced(n, b, acts) && Of(b[0], w, r) && !Exclusive(b[|acts|])
  {
    var lb, lms := BW.FourBreak(n);
    BW.BreaksSpaced(n, lb, lms, 4, 0, 1);
    var s := LockRunIsPart(n, size, w, r, lb, lms, |lms|);
    assert s.lock.Holds(0) && s.lock.Holds(1);
    b, acts := RunOf(n, size, w, r, s, lb, lms);
  }

  /** A run of the lock that ends with two writers, i and j, holding it; slots are those of w writers and
      the reader in slot r. */
  lemma {:induction false} WritersBreak(n: nat, w: nat, r: nat)
    returns (lb: seq<B.State>, lms: seq<B.Move>, i: nat, j: nat)
    requires 3 <= w < n && r <= w && (w == 3 ==> r >= 2)
    ensures i < j < w && BW.Breaks(n, lb, lms, w + 1, SlotOf(r, i), SlotOf(r, j))
  {
    i, j := 0, 1;
    if r >= 2 {
      lb, lms := BW.FourBreak(n);
    } else {
      lb, lms := BW.FiveBreak(n, r);
    }
  }

  /** No two writers are given the same slot, so that one message would take the place of another. */
  predicate OwnSlots(f: F.State) {
    forall i, j :: 0 <= i < j < |f.w| && f.w[i].WFill? && f.w[j].WFill? ==> f.w[i].slot != f.w[j].slot
  }

  /** Unless there are three writers and the reader has one of the two smallest slots, two writers come to
      be inside the buffer, whatever its size. */
  lemma {:induction false} WritersMeet(n: nat, size: nat, w: nat, r: nat)
    returns (b: seq<System>, acts: seq<Act>)
    requires 3 <= w < n && r <= w && (w == 3 ==> r >= 2) && size > 0
    ensures Run(n, size, b, acts) && LockSpaced(n, b, acts) && Of(b[0], w, r) && !F.OneInside(b[|acts|].fifo)
  {
    var lb, lms, i, j := WritersBreak(n, w, r);
    BW.BreaksSpaced(n, lb, lms, w + 1, SlotOf(r, i), SlotOf(r, j));
    var s := LockRunIsPart(n, size, w, r, lb, lms, |lms|);
    s := BothWork(n, size, w, r, s, lb, lms, |lms|, i, j);
    assert F.Inside(s.fifo.w[i]) && F.Inside(s.fifo.w[j]);
    b, acts := RunOf(n, size, w, r, s, lb, lms);
  }

  /** In a large enough buffer the two even get the same slot for two messages. */
  lemma {:induction false} WritersShareSlot(n: nat, w: nat, r: nat)
    returns (size: nat, b: seq<System>, acts: seq<Act>)
    requires 3 <= w < n && r <= w && (w == 3 ==> r >= 2)
    ensures Run(n, size, b, acts) && LockSpaced(n, b, acts) && Of(b[0], w, r) && !OwnSlots(b[|acts|].fifo)
  {
    var lb, lms, i, j := WritersBreak(n, w, r);
    BW.BreaksSpaced(n, lb, lms, w + 1, SlotOf(r, i), SlotOf(r, j));
    size := |lms| + 1;
    var s := LockRunIsPart(n, size, w, r, lb, lms, |lms|);
    s := BothWork(n, size, w, r, s, lb, lms, |lms|, i, j);
    s := Reserves(n, size, w, r, s, lb, lms, |lms|, i);
    s := Reserves(n, size, w, r, s, lb, lms, |lms|, j);
    assert s.fifo.w[i].WFill? && s.fifo.w[j].WFill? && s.fifo.w[i].slot == s.fifo.w[j].slot;
    b, acts := RunOf(n, size, w, r, s, lb, lms);
  }

  // ---------------------------------------------------------------- how many writers

  /** Wherever the reader is, the lock of the C text excludes in every run of the system with w writers
      exactly when there are at most two. */
  lemma {:induction false} LockExcludesExactly(n: nat, size: nat, w: nat, r: nat)
    requires r <= w < n && size > 0
    ensures
      (forall b: seq<System>, acts: seq<Act> ::
         Run(n, size, b, acts) && LockSpaced(n, b, acts) && Of(b[0], w, r) ==> LockExcludes(b))
      <==> w <= 2
  {
    if w <= 2 {
      forall b: seq<System>, acts: seq<Act> | Run(n, size, b, acts) && LockSpaced(n, b, acts) && Of(b[0], w, r)
        ensures LockExcludes(b)
      {
        TwoWritersLock(n, size, b, acts);
      }
    } else {
      var b, acts := ThreeWritersBreak(n, size, w, r);
      assert 0 <= |acts| < |b| && !Exclusive(b[|acts|]);
    }
  }

  lemma {:induction false} OneInsideOwnsSlot(f: F.State)
    requires F.OneInside(f)
    ensures OwnSlots(f)
  {
    assert forall i :: 0 <= i < |f.w| && f.w[i].WFill? ==> F.Inside(f.w[i]);
  }

  /** And exactly then it keeps all writers but one out of the buffer, unless there are three writers and
      the reader has one of the two smallest slots. */
  lemma {:induction false} OneInsideExactly(n: nat, size: nat, w: nat, r: nat)
    requires r <= w < n && size > 0 && (w == 3 ==> r >= 2)
    ensures
      (forall b: seq<System>, acts: seq<Act> ::
         Run(n, size, b, acts) && LockSpaced(n, b, acts) && Of(b[0], w, r) ==> AlwaysOneInside(b))
      <==> w <= 2
  {
    if w <= 2 {
      forall b: seq<System>, acts: seq<Act> | Run(n, size, b, acts) && LockSpaced(n, b, acts) && Of(b[0], w, r)
        ensures AlwaysOneInside(b)
      {
        TwoWritersLock(n, size, b, acts);
        LockKeepsOut(n, size, b, acts);
      }
    } else {
      var b, acts := WritersMeet(n, size, w, r);
      assert 0 <= |acts| < |b| && !F.OneInside(b[|acts|].fifo);
    }
  }

  /** And exactly then no two writers are ever given the same slot, whatever the size of the buffer. */
  lemma {:induction false} OwnSlotsExactly(n: nat, w: nat, r: nat)
    requires r <= w < n && (w == 3 ==> r >= 2)
    ensures
      (forall size: nat, b: seq<System>, acts: seq<Act> ::
         Run(n, size, b, acts) && LockSpaced(n, b, acts) && Of(b[0], w, r) ==>
           forall t :: 0 <= t < |b| ==> OwnSlots(b[t].fifo))
      <==> w <= 2
  {
    if w <= 2 {
      forall size: nat, b: seq<System>, acts: seq<Act>, t: int |
        Run(n, size, b, acts) && LockSpaced(n, b, acts) && Of(b[0], w, r) && 0 <= t < |b|
        ensures OwnSlots(b[t].fifo)
      {
        TwoWritersLock(n, size, b, acts);
        LockKeepsOut(n, size, b, acts);
        OneInsideOwnsSlot(b[t].fifo);
      }
    } else {
      var size, b, acts := WritersShareSlot(n, w, r);
      assert 0 <= |acts| < |b| && !OwnSlots(b[|acts|].fifo);
    }
  }

  // ---------------------------------------------------------------- with any number of writers

  lemma {:induction false} ReaderStays(n: nat, size: nat, b: seq<System>, acts: seq<Act>, t: nat)
    requires Run(n, size, b, acts) && t <= |acts|
    ensures b[t].reader == b[0].reader
  {
    if t > 0 {
      ReaderStays(n, size, b, acts, t - 1);
    }
  }

  /** The two processes with the largest slots never hold the lock of the C text at once. */
  lemma {:induction false} LastTwoApart(n: nat, size: nat, b: seq<System>, acts: seq<Act>, t: nat)
    requires Run(n, size, b, acts) && LockSpaced(n, b, acts) && t <= |acts| && |b[0].fifo.w| > 0
    ensures var w := |b[0].fifo.w|; |b[t].fifo.w| == w && !(b[t].lock.Holds(w - 1) && b[t].lock.Holds(w))
  {
    var w, u := |b[0].fifo.w|, |acts|;
    LockRuns(n, size, b, acts, t);
    LockRuns(n, size, b, acts, u);
    LockMovers(n, size, b, acts, t);
    LockMovers(n, size, b, acts, u);
    LockStatesGrow(b, acts, t, u);
    BL.LastTwoExclude(n, LockStates(b, acts, u), LockMoves(b, acts, u), w - 1, w, |LockMoves(b, acts, t)|);
  }

  /** So, when both are writers, they are never in the buffer at once. */
  lemma {:induction false} LastWritersApart(n: nat, size: nat, b: seq<System>, acts: seq<Act>, t: nat)
    requires Run(n, size, b, acts) && LockSpaced(n, b, acts) && t <= |acts| && b[0].reader + 2 <= |b[0].fifo.w|
    ensures var w := |b[t].fifo.w|; w >= 2 && !(F.Inside(b[t].fifo.w[w - 2]) && F.Inside(b[t].fifo.w[w - 1]))
  {
    LastTwoApart(n, size, b, acts, t);
    PhasedAt(n, size, b, acts, t);
    ReaderStays(n, size, b, acts, t);
  }

  // ---------------------------------------------------------------- delivery

  /** What is promised of a run: messages come out as published, and the end of the stream comes only when
      all are out, and lasts. */
  ghost predicate Serves(b: seq<System>) {
    && (forall t :: 0 <= t < |b| ==>
          F.Shaped(b[t].fifo) && FifoRuns.Delivers(b[t].fifo) && F.OneInside(b[t].fifo))
    && forall t, u :: 0 <= t <= u < |b| && b[t].fifo.r.REnd? ==>
         FifoRuns.AllDelivered(b[t].fifo) && b[u].fifo.published == b[t].fifo.published && b[u].fifo.r.REnd?
  }

  lemma {:induction false} OneInsideServes(n: nat, size: nat, b: seq<System>, acts: seq<Act>)
    requires Run(n, size, b, acts) && AlwaysOneInside(b)
    ensures Serves(b)
  {
    forall t | 0 <= t < |b|
      ensures F.Shaped(b[t].fifo) && FifoRuns.Delivers(b[t].fifo) && F.OneInside(b[t].fifo)
    {
      LockedModeDelivers(n, size, b, acts, t);
    }
    forall t, u | 0 <= t <= u < |b| && b[t].fifo.r.REnd?
      ensures FifoRuns.AllDelivered(b[t].fifo) && b[u].fifo.published == b[t].fifo.published && b[u].fifo.r.REnd?
    {
      LockedModeEnd(n, size, b, acts, t, u);
    }
  }

  /** The C text, with up to two writers. */
  lemma {:induction false} TwoWritersServed(n: nat, size: nat, b: seq<System>, acts: seq<Act>)
    requires Run(n, size, b, acts) && LockSpaced(n, b, acts) && |b[0].fifo.w| <= 2
    ensures Serves(b)
  {
    TwoWritersLock(n, size, b, acts);
    LockKeepsOut(n, size, b, acts);
    OneInsideServes(n, size, b, acts);
  }

  /** The lock with one read of each ticket in the doorway, with any number of writers. */
  lemma {:induction false} OneReadServes(n: nat, size: nat, b: seq<System>, acts: seq<Act>)
    requires Run(n, size, b, acts) && LockSpaced(n, b, acts) && LockReadsOnce(n, b, acts)
    ensures Serves(b)
  {
    OneReadLocks(n, size, b, acts);
    LockKeepsOut(n, size, b, acts);
    OneInsideServes(n, size, b, acts);
  }
}
