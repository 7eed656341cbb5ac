/** Tickets are 16-bit numbers (src/fcmanager/fc_semaphore.h:14-19, src/fcmanager/fc_semaphore.c:67).  Two
    processes that take turns and never leave the lock quiet make them overflow, and then both hold it. */
module BakeryOverflow {
  import opened Bakery
  import opened BakeryRuns
  import T = BakeryThree

  /** The process in slot x is at px with ticket tx, that in slot y at py with ticket ty, and nobody else
      uses the semaphore. */
  predicate Duo(s: State, n: nat, x: nat, px: Pc, tx: int, y: nat, py: Pc, ty: int) {
    && s.Shaped(n) && x < n && y < n && x != y && s.sem.recursive == 0
    && s.pc[x] == px && s.sem.number[x] == tx && s.pc[y] == py && s.sem.number[y] == ty
    && (forall j :: 0 <= j < n && j != x && j != y ==> s.pc[j].Idle? && s.sem.number[j] == 0)
    && forall j :: 0 <= j < n ==> s.sem.choosing[j] == Doorway(s.pc[j])
  }

  /** A run of x and y, with one read of each ticket, in which d tickets are completed. */
  ghost predicate Turns(n: nat, b: seq<State>, ms: seq<Move>, d: nat, x: nat, y: nat) {
    && Run(n, b, ms) && ReadsOnce(n, b, ms) && Doorways(n, b, ms, 0, |ms|) == d
    && forall k :: 0 <= k < |ms| ==> ms[k].p == x || ms[k].p == y
  }

  /** Such a run, and how the two stand at its end. */
  ghost predicate At(n: nat, b: seq<State>, ms: seq<Move>, d: nat, x: nat, px: Pc, tx: int, y: nat, py: Pc, ty: int) {
    Turns(n, b, ms, d, x, y) && Duo(b[|ms|], n, x, px, tx, y, py, ty)
  }

  /** One more step, of y; a ticket is copied right after it has been compared. */
  lemma {:induction false} TurnsMore(n: nat, b: seq<State>, ms: seq<Move>, d: nat, x: nat, y: nat)
    returns (b': seq<State>, ms': seq<Move>)
    requires Turns(n, b, ms, d, x, y) && y < n
    requires b[|ms|].pc[y].Copy? ==> ms != [] && ms[|ms| - 1].p == y
    ensures Turns(n, b', ms', d + if b[|ms|].pc[y].Increment? then 1 else 0, x, y)
    ensures b'[|ms'|] == Step(b[|ms|], n, Move(y, Put)) && ms' != [] && ms'[|ms'| - 1].p == y
  {
    b', ms' := b + [Step(b[|ms|], n, Move(y, Put))], ms + [Move(y, Put)];
    DoorwaysMore(n, b, ms, Move(y, Put));
    forall k | 0 <= k < |ms'| && b'[k].pc[ms'[k].p].Copy? ensures k > 0 && ms'[k - 1].p == ms'[k].p {
      if k < |ms| {
        assert b'[k] == b[k] && ms'[k] == ms[k];
      }
    }
  }

  /** What y does next and its ticket, after an access at py: it sees the tickets tx in slot x and ty in its
      own, and nobody choosing. */
  function Next(n: nat, x: nat, tx: int, y: nat, py: Pc, ty: int): (Pc, int) {
    match py
    case Idle => (if ty != 0 then NestRead else Choose, ty)
    case Choose => (Compare(0), ty)
    case Compare(i) => (if Ticket(x, tx, y, ty, i) > ty then Copy(i) else ScanOn(n, i), ty)
    case Copy(i) => (Store(i, Ticket(x, tx, y, ty, i)), ty)
    case Store(i, v) => (ScanOn(n, i), v)
    case Increment => (Unchoose, Succ16(ty))
    case Unchoose => (TestChoosing(0), ty)
    case TestChoosing(i) => (TestZero(i), ty)
    case TestZero(i) => (if Ticket(x, tx, y, ty, i) == 0 then WaitOn(n, i) else TestLess(i), ty)
    case TestLess(i) => (if Ticket(x, tx, y, ty, i) < ty then TestZero(i) else TestEqual(i), ty)
    case TestEqual(i) => (if Ticket(x, tx, y, ty, i) == ty && i < y then TestZero(i) else WaitOn(n, i), ty)
    case Critical => (Release, ty)
    case Release => (Idle, 0)
    case _ => (py, ty)
  }

  function Ticket(x: nat, tx: int, y: nat, ty: int, i: nat): int {
    if i == x then tx else if i == y then ty else 0
  }

  predicate Plain(pc: Pc) {
    !pc.NestRead? && !pc.NestWrite? && !pc.UnnestRead? && !pc.UnnestWrite?
  }

  lemma {:induction false} DuoStep(s: State, n: nat, x: nat, px: Pc, tx: int, y: nat, py: Pc, ty: int)
    requires Duo(s, n, x, px, tx, y, py, ty) && Plain(py) && !Doorway(px)
    ensures var (q, u) := Next(n, x, tx, y, py, ty); Duo(Step(s, n, Move(y, Put)), n, x, px, tx, y, q, u)
  {
  }

  /** A turn of y, next to x, which is not choosing. */
  lemma {:induction false} Turn(n: nat, b: seq<State>, ms: seq<Move>, d: nat, x: nat, px: Pc, tx: int, y: nat, py: Pc,
      ty: int)
    returns (b': seq<State>, ms': seq<Move>)
    requires At(n, b, ms, d, x, px, tx, y, py, ty) && Plain(py) && !Doorway(px)
    requires py.Copy? ==> ms != [] && ms[|ms| - 1].p == y
    ensures var (q, u) := Next(n, x, tx, y, py, ty);
      At(n, b', ms', d + if py.Increment? then 1 else 0, x, px, tx, y, q, u)
    ensures ms' != [] && ms'[|ms'| - 1].p == y
  {
    DuoStep(b[|ms|], n, x, px, tx, y, py, ty);
    b', ms' := TurnsMore(n, b, ms, d, x, y);
  }

  lemma {:induction false} Swap(n: nat, b: seq<State>, ms: seq<Move>, d: nat, x: nat, px: Pc, tx: int, y: nat, py: Pc,
      ty: int)
    requires At(n, b, ms, d, x, px, tx, y, py, ty)
    ensures At(n, b, ms, d, y, py, ty, x, px, tx)
  {
  }

  // ---------------------------------------------------------------- the doorway

  /** y reads the ticket of x. */
  lemma {:induction false} Reads(n: nat, b: seq<State>, ms: seq<Move>, d: nat, x: nat, px: Pc, tx: int, y: nat)
    returns (b': seq<State>, ms': seq<Move>)
    requires tx > 0 && !Doorway(px) && At(n, b, ms, d, x, px, tx, y, Compare(x), 0)
    ensures At(n, b', ms', d, x, px, tx, y, ScanOn(n, x), tx)
  {
    b', ms' := Turn(n, b, ms, d, x, px, tx, y, Compare(x), 0);
    b', ms' := Turn(n, b', ms', d, x, px, tx, y, Copy(x), 0);
    b', ms' := Turn(n, b', ms', d, x, px, tx, y, Store(x, tx), 0);
  }

  /** y scans on from slot i: its number is that of x once it has been there. */
  lemma {:induction false} Scan(n: nat, b: seq<State>, ms: seq<Move>, d: nat, x: nat, px: Pc, tx: int, y: nat, i: nat)
    returns (b': seq<State>, ms': seq<Move>)
    requires tx >= 0 && i < n && !Doorway(px)
    requires At(n, b, ms, d, x, px, tx, y, Compare(i), if i <= x then 0 else tx)
    ensures At(n, b', ms', d, x, px, tx, y, Increment, tx)
    decreases n - i
  {
    if i == x && tx > 0 {
      b', ms' := Reads(n, b, ms, d, x, px, tx, y);
    } else {
      b', ms' := Turn(n, b, ms, d, x, px, tx, y, Compare(i), if i <= x then 0 else tx);
    }
    if i + 1 < n {
      b', ms' := Scan(n, b', ms', d, x, px, tx, y, i + 1);
    }
  }

  lemma {:induction false} Begins(n: nat, b: seq<State>, ms: seq<Move>, d: nat, x: nat, px: Pc, tx: int, y: nat)
    returns (b': seq<State>, ms': seq<Move>)
    requires !Doorway(px) && At(n, b, ms, d, x, px, tx, y, Idle, 0)
    ensures At(n, b', ms', d, x, px, tx, y, Compare(0), 0)
  {
    b', ms' := Turn(n, b, ms, d, x, px, tx, y, Idle, 0);
    b', ms' := Turn(n, b', ms', d, x, px, tx, y, Choose, 0);
  }

  lemma {:induction false} Ends(n: nat, b: seq<State>, ms: seq<Move>, d: nat, x: nat, px: Pc, tx: int, y: nat)
    returns (b': seq<State>, ms': seq<Move>)
    requires !Doorway(px) && At(n, b, ms, d, x, px, tx, y, Increment, tx)
    ensures At(n, b', ms', d + 1, x, px, tx, y, TestChoosing(0), Succ16(tx))
  {
    b', ms' := Turn(n, b, ms, d, x, px, tx, y, Increment, tx);
    b', ms' := Turn(n, b', ms', d + 1, x, px, tx, y, Unchoose, Succ16(tx));
  }

  /** y takes the ticket after that of x. */
  lemma {:induction false} TakesTicket(n: nat, b: seq<State>, ms: seq<Move>, d: nat, x: nat, px: Pc, tx: int, y: nat)
    returns (b': seq<State>, ms': seq<Move>)
    requires tx >= 0 && !Doorway(px) && At(n, b, ms, d, x, px, tx, y, Idle, 0)
    ensures At(n, b', ms', d + 1, x, px, tx, y, TestChoosing(0), Succ16(tx))
  {
    b', ms' := Begins(n, b, ms, d, x, px, tx, y);
    b', ms' := Scan(n, b', ms', d, x, px, tx, y, 0);
    b', ms' := Ends(n, b', ms', d, x, px, tx, y);
  }

  // ---------------------------------------------------------------- the tests

  lemma {:induction false} Compares(n: nat, b: seq<State>, ms: seq<Move>, d: nat, x: nat, px: Pc, tx: int, y: nat,
      ty: int, i: nat)
    returns (b': seq<State>, ms': seq<Move>)
    requires !Doorway(px) && Ticket(x, tx, y, ty, i) >= ty && (Ticket(x, tx, y, ty, i) == ty ==> i >= y)
    requires At(n, b, ms, d, x, px, tx, y, TestLess(i), ty)
    ensures At(n, b', ms', d, x, px, tx, y, WaitOn(n, i), ty)
  {
    b', ms' := Turn(n, b, ms, d, x, px, tx, y, TestLess(i), ty);
    b', ms' := Turn(n, b', ms', d, x, px, tx, y, TestEqual(i), ty);
  }

  /** y passes its test of slot i. */
  lemma {:induction false} Test(n: nat, b: seq<State>, ms: seq<Move>, d: nat, x: nat, px: Pc, tx: int, y: nat,
      ty: int, i: nat)
    returns (b': seq<State>, ms': seq<Move>)
    requires !Doorway(px) && (tx == 0 || tx > ty) && ty != 0
    requires At(n, b, ms, d, x, px, tx, y, TestChoosing(i), ty)
    ensures At(n, b', ms', d, x, px, tx, y, WaitOn(n, i), ty)
  {
    b', ms' := Turn(n, b, ms, d, x, px, tx, y, TestChoosing(i), ty);
    b', ms' := Turn(n, b', ms', d, x, px, tx, y, TestZero(i), ty);
    if Ticket(x, tx, y, ty, i) != 0 {
      b', ms' := Compares(n, b', ms', d, x, px, tx, y, ty, i);
    }
  }

  lemma {:induction false} Tests(n: nat, b: seq<State>, ms: seq<Move>, d: nat, x: nat, px: Pc, tx: int, y: nat,
      ty: int, i: nat)
    returns (b': seq<State>, ms': seq<Move>)
    requires i < n && !Doorway(px) && (tx == 0 || tx > ty) && ty != 0
    requires At(n, b, ms, d, x, px, tx, y, TestChoosing(i), ty)
    ensures At(n, b', ms', d, x, px, tx, y, Critical, ty)
    decreases n - i
  {
    b', ms' := Test(n, b, ms, d, x, px, tx, y, ty, i);
    if i + 1 < n {
      b', ms' := Tests(n, b', ms', d, x, px, tx, y, ty, i + 1);
    }
  }

  // ---------------------------------------------------------------- rounds

  /** y puts the lock back. */
  lemma {:induction false} PutsBack(n: nat, b: seq<State>, ms: seq<Move>, d: nat, x: nat, px: Pc, tx: int, y: nat,
      ty: int)
    returns (b': seq<State>, ms': seq<Move>)
    requires !Doorway(px) && At(n, b, ms, d, x, px, tx, y, Critical, ty)
    ensures At(n, b', ms', d, x, px, tx, y, Idle, 0)
  {
    b', ms' := Turn(n, b, ms, d, x, px, tx, y, Critical, ty);
    b', ms' := Turn(n, b', ms', d, x, px, tx, y, Release, ty);
  }

  /** x holds the lock with ticket d; y takes the next one, x puts the lock back, and y gets it. */
  lemma {:induction false} Round(n: nat, b: seq<State>, ms: seq<Move>, d: nat, x: nat, y: nat)
    returns (b': seq<State>, ms': seq<Move>)
    requires 1 <= d < SHORT_MAX && At(n, b, ms, d, x, Critical, d, y, Idle, 0)
    ensures At(n, b', ms', d + 1, y, Critical, d + 1, x, Idle, 0)
  {
    b', ms' := TakesTicket(n, b, ms, d, x, Critical, d, y);
    Swap(n, b', ms', d + 1, x, Critical, d, y, TestChoosing(0), d + 1);
    b', ms' := PutsBack(n, b', ms', d + 1, y, TestChoosing(0), d + 1, x, d);
    Swap(n, b', ms', d + 1, y, TestChoosing(0), d + 1, x, Idle, 0);
    b', ms' := Tests(n, b', ms', d + 1, x, Idle, 0, y, d + 1, 0);
    Swap(n, b', ms', d + 1, x, Idle, 0, y, Critical, d + 1);
  }

  lemma {:induction false} FirstRound(n: nat) returns (b: seq<State>, ms: seq<Move>)
    requires n >= 2
    ensures At(n, b, ms, 1, 0, Critical, 1, 1, Idle, 0)
  {
    b, ms := [Init(n)], [];
    b, ms := TakesTicket(n, b, ms, 0, 1, Idle, 0, 0);
    b, ms := Tests(n, b, ms, 1, 1, Idle, 0, 0, 1, 0);
    Swap(n, b, ms, 1, 1, Idle, 0, 0, Critical, 1);
  }

  /** After d tickets, one of the two holds the lock with ticket d, and the other is outside. */
  lemma {:induction false} Rounds(n: nat, d: nat) returns (b: seq<State>, ms: seq<Move>, x: nat, y: nat)
    requires n >= 2 && 1 <= d <= SHORT_MAX
    ensures At(n, b, ms, d, x, Critical, d, y, Idle, 0) && x < 2 && y < 2
  {
    if d == 1 {
      b, ms := FirstRound(n);
      x, y := 0, 1;
    } else {
      b, ms, y, x := Rounds(n, d - 1);
      b, ms := Round(n, b, ms, d - 1, y, x);
    }
  }

  /** The next ticket overflows, and lets its owner in beside the other. */
  lemma {:induction false} OverflowBreaks(n: nat) returns (b: seq<State>, ms: seq<Move>, x: nat, y: nat)
    requires n >= 2
    ensures Turns(n, b, ms, SHORT_MAX + 1, x, y) && x < 2 && y < 2 && x != y
    ensures b[|ms|].Holds(x) && b[|ms|].Holds(y)
  {
    b, ms, x, y := Rounds(n, SHORT_MAX);
    b, ms := TakesTicket(n, b, ms, SHORT_MAX, x, Critical, SHORT_MAX, y);
    b, ms := Tests(n, b, ms, SHORT_MAX + 1, x, Critical, SHORT_MAX, y, SHORT_MIN, 0);
  }

  // ---------------------------------------------------------------- how many tickets are safe

  /** At every moment, at most d tickets have been completed since some quiet state. */
  ghost predicate SpacedBy(n: nat, b: seq<State>, ms: seq<Move>, d: nat)
    requires Run(n, b, ms)
  {
    forall t: nat :: t <= |ms| ==> CalmBy(n, b, ms, t, d)
  }

  ghost predicate CalmBy(n: nat, b: seq<State>, ms: seq<Move>, t: nat, d: nat)
    requires Run(n, b, ms)
  {
    exists a: nat :: QuietBy(n, b, ms, a, t, d)
  }

  ghost predicate QuietBy(n: nat, b: seq<State>, ms: seq<Move>, a: nat, t: nat, d: nat)
    requires Run(n, b, ms)
  {
    a <= t <= |ms| && Quiet(b[a], n) && Doorways(n, b, ms, a, t) <= d
  }

  lemma {:induction false} SpacedByIsSpaced(n: nat, b: seq<State>, ms: seq<Move>, d: nat)
    requires Run(n, b, ms) && SpacedBy(n, b, ms, d) && d <= SHORT_MAX
    ensures Spaced(n, b, ms)
  {
    forall t: nat | t <= |ms| ensures Calm(n, b, ms, t) {
      assert CalmBy(n, b, ms, t, d);
      var a: nat :| QuietBy(n, b, ms, a, t, d);
      assert RecentlyQuiet(n, b, ms, a, t);
    }
  }

  lemma {:induction false} TurnsSpaced(n: nat, b: seq<State>, ms: seq<Move>, d: nat, x: nat, y: nat)
    requires Turns(n, b, ms, d, x, y)
    ensures SpacedBy(n, b, ms, d)
  {
    forall t: nat | t <= |ms| ensures CalmBy(n, b, ms, t, d) {
      DoorwaysGrow(n, b, ms, t, |ms|);
      assert QuietBy(n, b, ms, 0, t, d);
    }
  }

  /** With one read of each ticket, two processes or more exclude each other in all runs with at most d
      tickets since a quiet state exactly when such tickets fit in a `short`. */
  lemma {:induction false} TicketsExactly(n: nat, d: nat)
    requires n >= 2
    ensures
      (forall b: seq<State>, ms: seq<Move> ::
         Run(n, b, ms) && ReadsOnce(n, b, ms) && SpacedBy(n, b, ms, d) ==> Exclusive(b))
      <==> d <= SHORT_MAX
  {
    if d <= SHORT_MAX {
      forall b: seq<State>, ms: seq<Move> | Run(n, b, ms) && ReadsOnce(n, b, ms) && SpacedBy(n, b, ms, d)
        ensures Exclusive(b)
      {
        SpacedByIsSpaced(n, b, ms, d);
        forall t: nat, p: nat, q: nat | t < |b| && b[t].Holds(p) && b[t].Holds(q) ensures p == q {
          OneReadExclusion(n, b, ms, t, p, q);
        }
      }
    } else {
      var b, ms, x, y := OverflowBreaks(n);
      TurnsSpaced(n, b, ms, SHORT_MAX + 1, x, y);
      SpacedByMore(n, b, ms, SHORT_MAX + 1, d);
    }
  }

  lemma {:induction false} SpacedByMore(n: nat, b: seq<State>, ms: seq<Move>, d: nat, e: nat)
    requires Run(n, b, ms) && SpacedBy(n, b, ms, d) && d <= e
    ensures SpacedBy(n, b, ms, e)
  {
    forall t: nat | t <= |ms| ensures CalmBy(n, b, ms, t, e) {
      assert CalmBy(n, b, ms, t, d);
      var a: nat :| QuietBy(n, b, ms, a, t, d);
      assert QuietBy(n, b, ms, a, t, e);
    }
  }

  /** The same for the C text, with its two reads, and two or three processes. */
  lemma {:induction false} FewTicketsExactly(n: nat, k: nat, d: nat)
    requires 2 <= k <= 3 && k <= n
    ensures
      (forall b: seq<State>, ms: seq<Move> ::
         Run(n, b, ms) && SpacedBy(n, b, ms, d) && |Movers(ms)| <= k ==> Exclusive(b))
      <==> d <= SHORT_MAX
  {
    if d <= SHORT_MAX {
      forall b: seq<State>, ms: seq<Move> | Run(n, b, ms) && SpacedBy(n, b, ms, d) && |Movers(ms)| <= k
        ensures Exclusive(b)
      {
        SpacedByIsSpaced(n, b, ms, d);
        T.ThreeExclude(n, b, ms);
      }
    } else {
      var b, ms, x, y := OverflowBreaks(n);
      TurnsSpaced(n, b, ms, SHORT_MAX + 1, x, y);
      SpacedByMore(n, b, ms, SHORT_MAX + 1, d);
      T.FewMovers(ms, 2);
    }
  }
}
