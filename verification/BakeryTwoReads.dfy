/** What the second read of a ticket in the doorway does to the lock (src/fcmanager/fc_semaphore.c:65-66).

    The doorway compares a ticket and then reads it again to copy it.  When the ticket has been
    cleared in between, the copy lowers the reader's own ticket.  BakeryTrace has one such run of
    four processes, from the initial state to a state where two of them hold the lock; this module
    plays it again in a table with any number of slots.  With the three processes of BakeryThree, this
    says exactly how many processes the lock can serve. */
module BakeryTwoReads {
  import opened Bakery
  import opened BakeryRuns
  import opened BakeryTrace
  import T = BakeryThree

  lemma {:induction false} FewDoorways(n: nat, b: seq<State>, ms: seq<Move>, t: nat)
    requires Run(n, b, ms) && t <= |ms|
    ensures Doorways(n, b, ms, 0, t) <= t
  {
    if t > 0 {
      FewDoorways(n, b, ms, t - 1);
    }
  }

  // ---------------------------------------------------------------- one more slot

  /** Where slot i is when a slot has been inserted at g. */
  function Shift(g: nat, i: nat): nat {
    if i < g then i else i + 1
  }

  function ShiftPc(g: nat, pc: Pc): Pc {
    match pc
    case Compare(i) => Compare(Shift(g, i))
    case Copy(i) => Copy(Shift(g, i))
    case Store(i, v) => Store(Shift(g, i), v)
    case TestChoosing(i) => TestChoosing(Shift(g, i))
    case TestZero(i) => TestZero(Shift(g, i))
    case TestLess(i) => TestLess(Shift(g, i))
    case TestEqual(i) => TestEqual(Shift(g, i))
    case _ => pc
  }

  /** What a process sees of slot i, or of the one that it has become. */
  predicate Alike(g: nat, s: Sem, t: Sem, i: nat)
    requires i < |s.number| == |s.choosing| && Shift(g, i) < |t.number| == |t.choosing|
  {
    t.number[Shift(g, i)] == s.number[i] && t.choosing[Shift(g, i)] == s.choosing[i]
  }

  predicate Twins(g: nat, s: State, w: State, i: nat)
    requires i < |s.pc| == |s.depth| == |s.sem.number| == |s.sem.choosing|
    requires Shift(g, i) < |w.pc| == |w.depth| == |w.sem.number| == |w.sem.choosing|
  {
    w.pc[Shift(g, i)] == ShiftPc(g, s.pc[i]) && w.depth[Shift(g, i)] == s.depth[i] && Alike(g, s.sem, w.sem, i)
  }

  /** Nobody uses slot g. */
  predicate Unused(w: State, n: nat, g: nat)
    requires w.Shaped(n) && g < n
  {
    w.pc[g].Idle? && w.sem.number[g] == 0 && !w.sem.choosing[g]
  }

  /** w is the state s of n slots in a table with one more, at g, which nobody uses. */
  predicate Wide(n: nat, g: nat, s: State, w: State) {
    && s.Shaped(n) && w.Shaped(n + 1) && g <= n && Unused(w, n + 1, g) && w.sem.recursive == s.sem.recursive
    && forall i {:trigger Twins(g, s, w, i)} :: 0 <= i < n ==> Twins(g, s, w, i)
  }

  /** The same, but for process p, of which only what others see is the same. */
  predicate WideBut(n: nat, g: nat, s: State, w: State, p: nat) {
    && s.Shaped(n) && w.Shaped(n + 1) && g <= n && Unused(w, n + 1, g) && w.sem.recursive == s.sem.recursive
    && p < n && Alike(g, s.sem, w.sem, p)
    && forall i {:trigger Twins(g, s, w, i)} :: 0 <= i < n && i != p ==> Twins(g, s, w, i)
  }

  /** A run by the first k processes that completes at most d tickets; if `puts`, no gets are nested in it. */
  ghost predicate Play(n: nat, b: seq<State>, ms: seq<Move>, d: nat, k: nat, puts: bool) {
    Run(n, b, ms) && Doorways(n, b, ms, 0, |ms|) <= d && (puts ==> Putting(ms)) && First(ms, k)
  }

  predicate First(ms: seq<Move>, k: nat) {
    forall j :: 0 <= j < |ms| ==> ms[j].p < k
  }

  lemma {:induction false} PlayMore(n: nat, b: seq<State>, ms: seq<Move>, d: nat, k: nat, puts: bool, m: Move)
    returns (b': seq<State>, ms': seq<Move>)
    requires Play(n, b, ms, d, k, puts) && m.p < k <= n && (puts ==> m.call.Put?)
    ensures Play(n, b', ms', d + if b[|ms|].pc[m.p].Increment? then 1 else 0, k, puts)
    ensures b'[|ms'|] == Step(b[|ms|], n, m)
  {
    DoorwaysMore(n, b, ms, m);
    b', ms' := b + [Step(b[|ms|], n, m)], ms + [m];
  }

  /** Where the wide process is when the other one comes to the place of the new slot. */
  function WidePc(n: nat, g: nat, before: Pc, after: Pc): Pc {
    if (before.Choose? && g == 0 && after == Compare(0)) ||
       (Scans(before) && before.i + 1 == g && Goes(n, before.i, after)) then Compare(g)
    else if (before.Unchoose? && g == 0 && after == TestChoosing(0)) ||
            (Waiting(before) && before.i + 1 == g && Waits(n, before.i, after)) then TestChoosing(g)
    else ShiftPc(g, after)
  }

  predicate Scans(pc: Pc) {
    pc.Compare? || pc.Store?
  }

  predicate Goes(n: nat, i: nat, pc: Pc) {
    pc == ScanOn(n, i)
  }

  predicate Waits(n: nat, i: nat, pc: Pc) {
    pc == WaitOn(n, i)
  }

  lemma {:induction false} ScanOver(n: nat, g: nat, i: nat)
    requires i < n && g <= n
    ensures ScanOn(n + 1, Shift(g, i)) == if i + 1 == g then Compare(g) else ShiftPc(g, ScanOn(n, i))
    ensures WaitOn(n + 1, Shift(g, i)) == if i + 1 == g then TestChoosing(g) else ShiftPc(g, WaitOn(n, i))
  {
  }

  lemma {:induction false} WideScan(n: nat, g: nat, s: Sem, t: Sem, p: nat, pc: Pc, call: Call)
    requires s.Shaped(n) && t.Shaped(n + 1) && p < n && g <= n && PcOk(pc, n) && Alike(g, s, t, p)
    requires (pc.Compare? || pc.Copy? || pc.Store?) && Alike(g, s, t, pc.i)
    ensures Access(t, n + 1, Shift(g, p), ShiftPc(g, pc), call).1 == WidePc(n, g, pc, Access(s, n, p, pc, call).1)
  {
    ScanOver(n, g, pc.i);
  }

  lemma {:induction false} WideWait(n: nat, g: nat, s: Sem, t: Sem, p: nat, pc: Pc, call: Call)
    requires s.Shaped(n) && t.Shaped(n + 1) && p < n && g <= n && PcOk(pc, n) && Alike(g, s, t, p)
    requires Waiting(pc) && Alike(g, s, t, pc.i)
    ensures Access(t, n + 1, Shift(g, p), ShiftPc(g, pc), call).1 == WidePc(n, g, pc, Access(s, n, p, pc, call).1)
  {
    ScanOver(n, g, pc.i);
  }

  /** The wide process goes on as the other one, up to the new slot. */
  lemma {:induction false} WideNext(n: nat, g: nat, s: Sem, t: Sem, p: nat, pc: Pc, call: Call)
    requires s.Shaped(n) && t.Shaped(n + 1) && p < n && g <= n && PcOk(pc, n)
    requires t.recursive == s.recursive && Alike(g, s, t, p) && (AtSlot(pc) ==> Alike(g, s, t, pc.i))
    ensures Access(t, n + 1, Shift(g, p), ShiftPc(g, pc), call).1 == WidePc(n, g, pc, Access(s, n, p, pc, call).1)
  {
    if Waiting(pc) {
      WideWait(n, g, s, t, p, pc, call);
    } else if AtSlot(pc) {
      WideScan(n, g, s, t, p, pc, call);
    }
  }

  predicate AtSlot(pc: Pc) {
    pc.Compare? || pc.Copy? || pc.Store? || Waiting(pc)
  }

  lemma {:induction false} WideEnds(n: nat, g: nat, before: Pc, after: Pc, depth: int)
    requires g <= n && PcOk(before, n) && PcOk(after, n)
    ensures var pc := WidePc(n, g, before, after);
      Ends(n + 1, g, pc, DepthAfter(ShiftPc(g, before), pc, depth), ShiftPc(g, after), DepthAfter(before, after, depth))
  {
  }

  /** A process at pc, with depth e, has come to the slot g that nobody uses, or is where it is to be. */
  predicate Ends(n: nat, g: nat, pc: Pc, e: int, pc': Pc, e': int) {
    || (pc' == pc && e' == e)
    || (pc == Compare(g) && pc' == ScanOn(n, g) && e' == e)
    || (pc == TestChoosing(g) && pc' == WaitOn(n, g) && e' == e + if g + 1 < n then 0 else 1)
  }

  /** The step of the wide process. */
  lemma {:induction false} WideOne(n: nat, g: nat, s: State, w: State, m: Move)
    requires Wide(n, g, s, w) && m.p < n
    ensures var p, t, v := Shift(g, m.p), Step(s, n, m), Step(w, n + 1, Move(Shift(g, m.p), m.call));
      && v.pc[p] == WidePc(n, g, s.pc[m.p], t.pc[m.p])
      && v.depth[p] == DepthAfter(ShiftPc(g, s.pc[m.p]), v.pc[p], s.depth[m.p])
      && v.sem.recursive == t.sem.recursive && Alike(g, t.sem, v.sem, m.p)
  {
    assert Twins(g, s, w, m.p);
    if AtSlot(s.pc[m.p]) {
      assert Twins(g, s, w, s.pc[m.p].i);
    }
    WideNext(n, g, s.sem, w.sem, m.p, s.pc[m.p], m.call);
  }

  lemma {:induction false} WideOthers(n: nat, g: nat, s: State, w: State, m: Move, i: nat)
    requires Wide(n, g, s, w) && m.p < n && i < n && i != m.p
    ensures Twins(g, Step(s, n, m), Step(w, n + 1, Move(Shift(g, m.p), m.call)), i)
  {
    assert Twins(g, s, w, i) && Shift(g, i) != Shift(g, m.p);
  }

  lemma {:induction false} WideAfter(n: nat, g: nat, s: State, w: State, m: Move, t: State, v: State)
    requires Wide(n, g, s, w) && m.p < n && t == Step(s, n, m) && v == Step(w, n + 1, Move(Shift(g, m.p), m.call))
    ensures WideBut(n, g, t, v, m.p)
    ensures Ends(n + 1, g, v.pc[Shift(g, m.p)], v.depth[Shift(g, m.p)], ShiftPc(g, t.pc[m.p]), t.depth[m.p])
  {
    assert Twins(g, s, w, m.p);
    WideOne(n, g, s, w, m);
    WideEnds(n, g, s.pc[m.p], t.pc[m.p], s.depth[m.p]);
    assert Unused(v, n + 1, g);
    forall i | 0 <= i < n && i != m.p ensures Twins(g, t, v, i) {
      WideOthers(n, g, s, w, m, i);
    }
  }

  /** w with process p at pc and with depth e. */
  function Placed(w: State, n: nat, p: nat, pc: Pc, e: int): (v: State)
    requires w.Shaped(n) && p < n && PcOk(pc, n)
    ensures v.Shaped(n)
  {
    w.(pc := w.pc[p := pc], depth := w.depth[p := e])
  }

  lemma {:induction false} WideAgain(n: nat, g: nat, s: State, w: State, p: nat)
    requires WideBut(n, g, s, w, p) && PcOk(ShiftPc(g, s.pc[p]), n + 1)
    ensures Wide(n, g, s, Placed(w, n + 1, Shift(g, p), ShiftPc(g, s.pc[p]), s.depth[p]))
  {
    var v := Placed(w, n + 1, Shift(g, p), ShiftPc(g, s.pc[p]), s.depth[p]);
    forall i | 0 <= i < n ensures Twins(g, s, v, i) {
      assert i != p ==> Twins(g, s, w, i);
    }
  }

  /** The scan passes a slot that nobody uses. */
  lemma {:induction false} PassScan(n: nat, b: seq<State>, ms: seq<Move>, d: nat, k: nat, puts: bool, p: nat, g: nat)
    returns (b': seq<State>, ms': seq<Move>)
    requires Play(n, b, ms, d, k, puts) && p < k <= n && g < n && b[|ms|].pc[p] == Compare(g)
    requires Unused(b[|ms|], n, g) && b[|ms|].sem.number[p] >= 0
    ensures Play(n, b', ms', d, k, puts)
    ensures b'[|ms'|] == Placed(b[|ms|], n, p, ScanOn(n, g), b[|ms|].depth[p])
  {
    b', ms' := PlayMore(n, b, ms, d, k, puts, Move(p, Put));
  }

  lemma {:induction false} PassWait(n: nat, b: seq<State>, ms: seq<Move>, d: nat, k: nat, puts: bool, p: nat, g: nat)
    returns (b': seq<State>, ms': seq<Move>)
    requires Play(n, b, ms, d, k, puts) && p < k <= n && g < n && b[|ms|].pc[p] == TestChoosing(g)
    requires Unused(b[|ms|], n, g)
    ensures Play(n, b', ms', d, k, puts)
    ensures b'[|ms'|] == Placed(b[|ms|], n, p, WaitOn(n, g), b[|ms|].depth[p] + if g + 1 < n then 0 else 1)
  {
    WaitSteps(n, b[|ms|], p, g);
    b', ms' := PlayMore(n, b, ms, d, k, puts, Move(p, Put));
    b', ms' := PlayMore(n, b', ms', d, k, puts, Move(p, Put));
  }

  lemma {:induction false} WaitSteps(n: nat, u: State, p: nat, g: nat)
    requires u.Shaped(n) && p < n && g < n && u.pc[p] == TestChoosing(g) && Unused(u, n, g)
    ensures var v := Step(u, n, Move(p, Put));
      && v.pc[p] == TestZero(g)
      && Step(v, n, Move(p, Put)) == Placed(u, n, p, WaitOn(n, g), u.depth[p] + if g + 1 < n then 0 else 1)
  {
    var v := Step(u, n, Move(p, Put));
    assert v == Placed(u, n, p, TestZero(g), u.depth[p]);
    Overwrite(u.pc, p, TestZero(g), WaitOn(n, g));
    Overwrite(u.depth, p, u.depth[p], u.depth[p] + if g + 1 < n then 0 else 1);
  }

  lemma {:induction false} Overwrite<T>(s: seq<T>, p: nat, x: T, y: T)
    requires p < |s|
    ensures s[p := x][p := y] == s[p := y]
  {
  }

  /** The rest of a step in the wide table. */
  lemma {:induction false} EndStep(n: nat, b: seq<State>, ms: seq<Move>, d: nat, k: nat, puts: bool, p: nat, g: nat,
      pc: Pc, e: int)
    returns (b': seq<State>, ms': seq<Move>)
    requires Play(n, b, ms, d, k, puts) && p < k <= n && g < n && PcOk(pc, n)
    requires Unused(b[|ms|], n, g) && b[|ms|].sem.number[p] >= 0
    requires Ends(n, g, b[|ms|].pc[p], b[|ms|].depth[p], pc, e)
    ensures Play(n, b', ms', d, k, puts) && b'[|ms'|] == Placed(b[|ms|], n, p, pc, e)
  {
    var w := b[|ms|];
    if w.pc[p] == pc && w.depth[p] == e {
      b', ms' := b, ms;
      assert w.pc[p := w.pc[p]] == w.pc && w.depth[p := w.depth[p]] == w.depth;
    } else if w.pc[p] == Compare(g) {
      b', ms' := PassScan(n, b, ms, d, k, puts, p, g);
    } else {
      b', ms' := PassWait(n, b, ms, d, k, puts, p, g);
    }
  }

  lemma {:induction false} EndWide(n: nat, g: nat, b: seq<State>, ms: seq<Move>, d: nat, k: nat, puts: bool,
      t: State, p: nat)
    returns (b': seq<State>, ms': seq<Move>)
    requires Play(n + 1, b, ms, d, k, puts) && WideBut(n, g, t, b[|ms|], p) && Shift(g, p) < k <= n + 1
    requires t.sem.number[p] >= 0
    requires Ends(n + 1, g, b[|ms|].pc[Shift(g, p)], b[|ms|].depth[Shift(g, p)], ShiftPc(g, t.pc[p]), t.depth[p])
    ensures Play(n + 1, b', ms', d, k, puts) && Wide(n, g, t, b'[|ms'|])
  {
    var pc := ShiftPc(g, t.pc[p]);
    assert PcOk(pc, n + 1);
    WideAgain(n, g, t, b[|ms|], p);
    b', ms' := EndStep(n + 1, b, ms, d, k, puts, Shift(g, p), g, pc, t.depth[p]);
  }

  lemma {:induction false} PlayTwin(n: nat, g: nat, b: seq<State>, ms: seq<Move>, d: nat, k: nat, puts: bool,
      s: State, m: Move)
    returns (b': seq<State>, ms': seq<Move>)
    requires m.p < n && Shift(g, m.p) < k <= n + 1 && (puts ==> m.call.Put?)
    requires Play(n + 1, b, ms, d, k, puts) && Wide(n, g, s, b[|ms|])
    ensures Play(n + 1, b', ms', d + if s.pc[m.p].Increment? then 1 else 0, k, puts)
    ensures b'[|ms'|] == Step(b[|ms|], n + 1, Move(Shift(g, m.p), m.call))
  {
    assert Twins(g, s, b[|ms|], m.p);
    b', ms' := PlayMore(n + 1, b, ms, d, k, puts, Move(Shift(g, m.p), m.call));
  }

  /** A step, from s to t, is one step in the wide table, and a test of the new slot where a scan comes to
      it. */
  lemma {:induction false} WideStep(n: nat, g: nat, b: seq<State>, ms: seq<Move>, d: nat, k: nat, puts: bool,
      s: State, m: Move, t: State)
    returns (b': seq<State>, ms': seq<Move>)
    requires m.p < n && Shift(g, m.p) < k <= n + 1 && (puts ==> m.call.Put?)
    requires Play(n + 1, b, ms, d, k, puts) && Wide(n, g, s, b[|ms|])
    requires t == Step(s, n, m) && t.sem.number[m.p] >= 0
    ensures Play(n + 1, b', ms', d + if s.pc[m.p].Increment? then 1 else 0, k, puts)
    ensures Wide(n, g, t, b'[|ms'|])
  {
    var w, d' := b[|ms|], d + if s.pc[m.p].Increment? then 1 else 0;
    b', ms' := PlayTwin(n, g, b, ms, d, k, puts, s, m);
    WideAfter(n, g, s, w, m, t, b'[|ms'|]);
    b', ms' := EndWide(n, g, b', ms', d', k, puts, t, m.p);
  }

  lemma {:induction false} WideInit(n: nat, g: nat)
    requires g <= n
    ensures Wide(n, g, Init(n), Init(n + 1))
  {
  }

  /** Every run can be played in a table with one more slot, which nobody uses, at any place g: it goes
      through the same states, widened, takes as many tickets, and nests no gets if the run does not. */
  lemma {:induction false} WideRun(n: nat, g: nat, k: nat, puts: bool, b: seq<State>, ms: seq<Move>, t: nat)
    returns (b': seq<State>, ms': seq<Move>)
    requires Run(n, b, ms) && (puts ==> Putting(ms)) && g <= n && t <= |ms| && Doorways(n, b, ms, 0, |ms|) <= SHORT_MAX
    requires k <= n + 1 && forall j :: 0 <= j < |ms| ==> Shift(g, ms[j].p) < k
    ensures Play(n + 1, b', ms', Doorways(n, b, ms, 0, t), k, puts) && Wide(n, g, b[t], b'[|ms'|])
  {
    if t == 0 {
      b', ms' := [Init(n + 1)], [];
      WideInit(n, g);
    } else {
      b', ms' := WideRun(n, g, k, puts, b, ms, t - 1);
      DoorwaysGrow(n, b, ms, t, |ms|);
      TicketBound(n, b, ms, 0, t);
      b', ms' := WideStep(n, g, b', ms', Doorways(n, b, ms, 0, t - 1), k, puts, b[t - 1], ms[t - 1], b[t]);
    }
  }

  // ---------------------------------------------------------------- when the lock excludes

  /** A run by the first k processes, in which nobody nests and few tickets are taken, that ends with x and
      y about to leave the get that both have got the lock by. */
  ghost predicate Breaks(n: nat, b: seq<State>, ms: seq<Move>, k: nat, x: nat, y: nat) {
    && Play(n, b, ms, SHORT_MAX, k, true)
    && x < y < k <= n && b[|ms|].pc[x] == b[|ms|].pc[y] == Critical
  }

  lemma {:induction false} WideBreaks(n: nat, g: nat, b: seq<State>, ms: seq<Move>, k: nat, x: nat, y: nat)
    returns (b': seq<State>, ms': seq<Move>)
    requires Breaks(n, b, ms, k, x, y) && g <= n
    ensures Breaks(n + 1, b', ms', if g < k then k + 1 else k, Shift(g, x), Shift(g, y))
  {
    var k' := if g < k then k + 1 else k;
    b', ms' := WideRun(n, g, k', true, b, ms, |ms|);
    assert Twins(g, b[|ms|], b'[|ms'|], x) && Twins(g, b[|ms|], b'[|ms'|], y);
  }

  lemma {:induction false} TraceBreaks() returns (b: seq<State>, ms: seq<Move>)
    ensures Breaks(4, b, ms, 4, 0, 1)
  {
    Act51();
    b, ms :| Run(4, b, ms) && Putting(ms) && |ms| == 126 && b[126] == S51;
    FewDoorways(4, b, ms, 126);
  }

  /** The first four processes, in a table of any size: the first two get the lock. */
  lemma {:induction false} FourBreak(n: nat) returns (b: seq<State>, ms: seq<Move>)
    requires n >= 4
    ensures Breaks(n, b, ms, 4, 0, 1)
  {
    if n == 4 {
      b, ms := TraceBreaks();
    } else {
      b, ms := FourBreak(n - 1);
      b, ms := WideBreaks(n - 1, n - 1, b, ms, 4, 0, 1);
    }
  }

  /** A run without nesting in which few tickets are taken is spaced, and breaks exclusion. */
  lemma {:induction false} BreaksSpaced(n: nat, b: seq<State>, ms: seq<Move>, k: nat, x: nat, y: nat)
    requires Breaks(n, b, ms, k, x, y)
    ensures Spaced(n, b, ms) && b[|ms|].Holds(x) && b[|ms|].Holds(y)
  {
    forall t: nat | t <= |ms| ensures Calm(n, b, ms, t) {
      DoorwaysGrow(n, b, ms, t, |ms|);
      assert RecentlyQuiet(n, b, ms, 0, t);
    }
  }

  /** With four processes or more mutual exclusion fails, in a table of any size: this run of four of
      them completes few tickets, so none overflows, and ends with two processes holding the lock. */
  lemma {:induction false} TwoReadsBreakExclusion(n: nat) returns (b: seq<State>, ms: seq<Move>)
    requires n >= 4
    ensures Run(n, b, ms) && Spaced(n, b, ms) && |Movers(ms)| <= 4
    ensures !CopiesGently(n, b, ms) && b[|ms|].Holds(0) && b[|ms|].Holds(1)
  {
    b, ms := FourBreak(n);
    BreaksSpaced(n, b, ms, 4, 0, 1);
    if CopiesGently(n, b, ms) {
      MutualExclusion(n, b, ms, |ms|, 0, 1);
    }
    T.FewMovers(ms, 4);
  }

  /** The first five processes but one, in a table of any size: the first two of them get the lock. */
  lemma {:induction false} FiveBreak(n: nat, g: nat) returns (b: seq<State>, ms: seq<Move>)
    requires n >= 5 && g <= 4
    ensures Breaks(n, b, ms, if g < 4 then 5 else 4, Shift(g, 0), Shift(g, 1))
  {
    b, ms := FourBreak(n - 1);
    b, ms := WideBreaks(n - 1, g, b, ms, 4, 0, 1);
  }

  /** The number of processes decides: the lock of the C text excludes in every run in which at most k
      processes use it exactly when k is at most three, whatever the size of the table. */
  lemma {:induction false} ExclusionExactly(n: nat, k: nat)
    requires k <= n
    ensures
      (forall b: seq<State>, ms: seq<Move> ::
         Run(n, b, ms) && Spaced(n, b, ms) && |Movers(ms)| <= k ==> Exclusive(b))
      <==> k <= 3
  {
    if k <= 3 {
      forall b: seq<State>, ms: seq<Move> | Run(n, b, ms) && Spaced(n, b, ms) && |Movers(ms)| <= k
        ensures Exclusive(b)
      {
        T.ThreeExclude(n, b, ms);
      }
    } else {
      var b, ms := TwoReadsBreakExclusion(n);
    }
  }
}
