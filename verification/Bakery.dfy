/** The bakery lock of src/fcmanager/fc_semaphore.c as a transition system.

    Any number of processes share one FC_Semaphore.  A process is always about to perform one
    access to it: its program counter names the access, and one step performs exactly that read
    or write.  The counters `i` are the loop variables of the scans.

    The C text reads another process's ticket more than once where a reader may expect one read:
    twice in the doorway (compare, then copy) and up to three times in the waiting test.  Each of
    these reads is a step of its own here, so that anything may happen between them. */
module Bakery {

  const SHORT_MAX := 32767
  const SHORT_MIN := -32768

  /** The shared structure; `choosing` and `number` have one entry per slot. */
  datatype Sem = Sem(choosing: seq<bool>, number: seq<int>, recursive: int) {
    predicate Shaped(n: nat) {
      |choosing| == n && |number| == n
    }
  }

  /** What a process outside the lock operations does next. */
  datatype Call = Get | Put

  datatype Pc =
    | Idle                      // outside: has no ticket
    | Choose                    // get: about to announce the choice of a ticket
    | Compare(i: nat)           // get: compares ticket i with its own
    | Copy(i: nat)              // get: reads ticket i again, in order to copy it
    | Store(i: nat, v: int)     // get: stores the value read as its own ticket
    | Increment                 // get: makes its ticket larger than all it has seen
    | Unchoose                  // get: withdraws the announcement
    | TestChoosing(i: nat)      // get: waits until process i is not choosing
    | TestZero(i: nat)          // get: does process i have a ticket?
    | TestLess(i: nat)          // get: is it smaller?
    | TestEqual(i: nat)         // get: is it the same, with a smaller slot?
    | Critical                  // holds the lock, outside the lock operations
    | NestRead                  // nested get: reads the recursion counter
    | NestWrite(c: int)         // nested get: writes it back, plus one
    | UnnestRead                // put: reads the non-zero recursion counter
    | UnnestWrite(c: int)       // put: writes it back, minus one
    | Release                   // put: clears its ticket

  /** A ticket is a C `short`. */
  function Succ16(x: int): int {
    if x == SHORT_MAX then SHORT_MIN else x + 1
  }

  /** Where the doorway scan goes after slot i. */
  function ScanOn(n: nat, i: nat): Pc {
    if i + 1 < n then Compare(i + 1) else Increment
  }

  /** Where the waiting scan goes after slot i. */
  function WaitOn(n: nat, i: nat): Pc {
    if i + 1 < n then TestChoosing(i + 1) else Critical
  }

  predicate PcOk(pc: Pc, n: nat) {
    (pc.Compare? || pc.Copy? || pc.Store? || pc.TestChoosing? || pc.TestZero? || pc.TestLess? || pc.TestEqual?)
    ==> pc.i < n
  }

  /** One access by process p, standing at `pc`, to the shared structure. */
  function Access(sem: Sem, n: nat, p: nat, pc: Pc, call: Call): (r: (Sem, Pc))
    requires sem.Shaped(n) && p < n && PcOk(pc, n)
    ensures r.0.Shaped(n) && PcOk(r.1, n)
  {
    var own := sem.number[p];
    match pc
    case Idle => (sem, if own != 0 then NestRead else Choose)
    case Choose => (sem.(choosing := sem.choosing[p := true]), Compare(0))
    case Compare(i) => (sem, if sem.number[i] > own then Copy(i) else ScanOn(n, i))
    case Copy(i) => (sem, Store(i, sem.number[i]))
    case Store(i, v) => (sem.(number := sem.number[p := v]), ScanOn(n, i))
    case Increment => (sem.(number := sem.number[p := Succ16(own)]), Unchoose)
    case Unchoose => (sem.(choosing := sem.choosing[p := false]), TestChoosing(0))
    case TestChoosing(i) => (sem, if sem.choosing[i] then pc else TestZero(i))
    case TestZero(i) => (sem, if sem.number[i] == 0 then WaitOn(n, i) else TestLess(i))
    case TestLess(i) => (sem, if sem.number[i] < own then TestZero(i) else TestEqual(i))
    case TestEqual(i) => (sem, if sem.number[i] == own && i < p then TestZero(i) else WaitOn(n, i))
    case Critical =>
      (match call
       case Get => (sem, if own != 0 then NestRead else Choose)
       case Put => (sem, if sem.recursive != 0 then UnnestRead else Release))
    case NestRead => (sem, NestWrite(sem.recursive))
    case NestWrite(c) => (sem.(recursive := c + 1), Critical)
    case UnnestRead => (sem, UnnestWrite(sem.recursive))
    case UnnestWrite(c) => (sem.(recursive := c - 1), Critical)
    case Release => (sem.(number := sem.number[p := 0]), Idle)
  }

  /** A process writes nothing but its own entries and, in a nested call, the counter; of these, one access
      writes at most one. */
  lemma {:induction false} WritesItsOwn(sem: Sem, n: nat, p: nat, pc: Pc, call: Call)
    requires sem.Shaped(n) && p < n && PcOk(pc, n)
    ensures var t := Access(sem, n, p, pc, call).0;
      && t.choosing == (if pc.Choose? || pc.Unchoose? then sem.choosing[p := pc.Choose?] else sem.choosing)
      && (forall i :: 0 <= i < n && i != p ==> t.number[i] == sem.number[i])
      && (t.number[p] != sem.number[p] ==> pc.Store? || pc.Increment? || pc.Release?)
      && (t.recursive != sem.recursive ==> pc.NestWrite? || pc.UnnestWrite?)
  {
  }

  predicate Doorway(pc: Pc) {
    pc.Compare? || pc.Copy? || pc.Store? || pc.Increment? || pc.Unchoose?
  }

  predicate Waiting(pc: Pc) {
    pc.TestChoosing? || pc.TestZero? || pc.TestLess? || pc.TestEqual?
  }

  /** Past get and before the outermost put. */
  predicate Holding(pc: Pc) {
    pc.Critical? || pc.NestRead? || pc.NestWrite? || pc.UnnestRead? || pc.UnnestWrite? || pc.Release?
  }

  /** Has its final ticket. */
  predicate Ticketed(pc: Pc) {
    pc.Unchoose? || Waiting(pc) || Holding(pc)
  }

  /** The whole system.  `depth[p]` counts the gets of p that have returned, minus its puts. */
  datatype State = State(sem: Sem, pc: seq<Pc>, depth: seq<int>) {
    predicate Shaped(n: nat) {
      && sem.Shaped(n) && |pc| == n && |depth| == n
      && forall p :: 0 <= p < n ==> PcOk(pc[p], n)
    }
    predicate Holds(p: nat) {
      p < |pc| && Holding(pc[p])
    }
  }

  datatype Move = Move(p: nat, call: Call)

  function Init(n: nat): (s: State)
    ensures s.Shaped(n)
  {
    State(Sem(seq(n, _ => false), seq(n, _ => 0), 0), seq(n, _ => Idle), seq(n, _ => 0))
  }

  /** A get returns where the process becomes Critical; a put where it writes. */
  function DepthAfter(before: Pc, after: Pc, d: int): int {
    if before.NestWrite? || (Waiting(before) && after.Critical?) then d + 1
    else if before.UnnestWrite? || before.Release? then d - 1
    else d
  }

  function Step(s: State, n: nat, m: Move): (t: State)
    requires s.Shaped(n) && m.p < n
    ensures t.Shaped(n)
  {
    var (sem, pc) := Access(s.sem, n, m.p, s.pc[m.p], m.call);
    State(sem, s.pc[m.p := pc], s.depth[m.p := DepthAfter(s.pc[m.p], pc, s.depth[m.p])])
  }

  /** The step does not lower a ticket: a ticket read for copying is still at least the reader's
      own, and an incremented ticket fits in a `short`. */
  predicate Gentle(s: State, n: nat, m: Move)
    requires s.Shaped(n) && m.p < n
  {
    match s.pc[m.p]
    case Copy(i) => s.sem.number[i] >= s.sem.number[m.p]
    case Increment => s.sem.number[m.p] < SHORT_MAX
    case _ => true
  }

  // ---------------------------------------------------------------- tickets that do not overflow

  /** What process p has to do with the semaphore, also when copies lower tickets. */
  predicate Sane(s: State, n: nat, p: nat)
    requires s.Shaped(n) && p < n
  {
    var pc, own := s.pc[p], s.sem.number[p];
    && s.sem.choosing[p] == Doorway(pc)
    && own >= 0
    && (pc.Idle? || pc.Choose? ==> own == 0)
    && (Ticketed(pc) ==> own > 0)
    && (pc.Store? ==> pc.v >= 0)
  }

  ghost predicate AllSane(s: State, n: nat) {
    s.Shaped(n) && forall p: nat :: p < n ==> Sane(s, n, p)
  }

  /** An incremented ticket fits in a `short`. */
  predicate Small(s: State, n: nat, m: Move)
    requires s.Shaped(n) && m.p < n
  {
    s.pc[m.p].Increment? ==> s.sem.number[m.p] < SHORT_MAX
  }

  /** Every step that overflows no ticket keeps this. */
  lemma {:induction false} SaneStep(s: State, n: nat, m: Move)
    requires AllSane(s, n) && m.p < n && Small(s, n, m)
    ensures AllSane(Step(s, n, m), n)
  {
    assert Sane(s, n, m.p);
    forall p: nat | p < n ensures Sane(Step(s, n, m), n, p) {
      assert Sane(s, n, p);
      if s.pc[m.p].Copy? {
        assert Sane(s, n, s.pc[m.p].i);
      }
    }
  }

  // ---------------------------------------------------------------- the invariant

  predicate Before(s: State, n: nat, p: nat, j: nat)
    requires s.Shaped(n) && p < n && j < n
  {
    s.sem.number[p] < s.sem.number[j] || (s.sem.number[p] == s.sem.number[j] && p < j)
  }

  /** A process at `pc` has seen process j not choosing since it took its ticket. */
  predicate Saw(pc: Pc, j: nat) {
    Holding(pc) || (pc.TestChoosing? && j < pc.i)
    || ((pc.TestZero? || pc.TestLess? || pc.TestEqual?) && j <= pc.i)
  }

  /** A process at `pc` is past its test of process j. */
  predicate Passed(pc: Pc, j: nat) {
    Holding(pc) || (Waiting(pc) && j < pc.i)
  }

  ghost predicate Local(s: State, n: nat, p: nat)
    requires s.Shaped(n) && p < n
  {
    var pc, own := s.pc[p], s.sem.number[p];
    && Sane(s, n, p)
    && (pc.Store? ==> pc.v >= own)
    && (if Holding(pc) then s.depth[p] > 0 else s.depth[p] == 0)
  }

  /** Process j, choosing a ticket that p must precede, has taken p's ticket into account as soon
      as its scan is past slot p. */
  predicate Catching(s: State, n: nat, p: nat, j: nat)
    requires s.Shaped(n) && p < n && j < n
  {
    var pc, own, other := s.pc[j], s.sem.number[p], s.sem.number[j];
    && ((pc.Compare? || pc.Copy? || pc.Store?) && pc.i > p ==> other >= own)
    && (pc.Store? && pc.i == p ==> pc.v >= own)
    && (pc.Increment? ==> other >= own)
  }

  predicate Pair(s: State, n: nat, p: nat, j: nat)
    requires s.Shaped(n) && p < n && j < n
  {
    p != j && Saw(s.pc[p], j) ==>
      && Catching(s, n, p, j)
      && (Ticketed(s.pc[j]) && Passed(s.pc[p], j) ==> Before(s, n, p, j))
      && (Ticketed(s.pc[j]) && s.pc[p] == TestEqual(j) ==> s.sem.number[j] >= s.sem.number[p])
  }

  /** The recursion counter is the holder's nesting depth minus one, and a value read for updating
      it is still its value. */
  predicate Counter(s: State, n: nat, p: nat)
    requires s.Shaped(n) && p < n
  {
    var pc, c := s.pc[p], s.sem.recursive;
    Holding(pc) ==>
      && c + 1 == s.depth[p]
      && (pc.NestWrite? ==> pc.c == c)
      && (pc.UnnestWrite? ==> pc.c == c && c > 0)
      && (pc.UnnestRead? ==> c > 0)
      && (pc.Release? ==> c == 0)
  }

  ghost predicate Inv(s: State, n: nat) {
    && s.Shaped(n)
    && (forall p: nat :: p < n ==> Local(s, n, p))
    && (forall p: nat, j: nat :: p < n && j < n ==> Pair(s, n, p, j))
    && (forall p: nat :: p < n ==> Counter(s, n, p))
    && ((forall p: nat :: p < n ==> !s.Holds(p)) ==> s.sem.recursive == 0)
  }

  lemma {:induction false} OneHolder(s: State, n: nat, p: nat, q: nat)
    requires Inv(s, n) && s.Holds(p) && s.Holds(q)
    ensures p == q
  {
    assert Pair(s, n, p, q) && Pair(s, n, q, p);
  }

  lemma {:induction false} LocalKept(s: State, n: nat, m: Move, p: nat)
    requires Inv(s, n) && m.p < n && Gentle(s, n, m) && p < n
    ensures Local(Step(s, n, m), n, p)
  {
    assert Local(s, n, p);
    assert Local(s, n, m.p);
    assert Counter(s, n, m.p);
  }

  lemma {:induction false} PairKeptByFirst(s: State, n: nat, m: Move, j: nat)
    requires Inv(s, n) && m.p < n && Gentle(s, n, m) && j < n
    ensures Pair(Step(s, n, m), n, m.p, j)
  {
    assert Local(s, n, m.p) && Local(s, n, j) && Pair(s, n, m.p, j);
  }

  lemma {:induction false} PairKeptBySecond(s: State, n: nat, m: Move, p: nat)
    requires Inv(s, n) && m.p < n && Gentle(s, n, m) && p < n
    ensures Pair(Step(s, n, m), n, p, m.p)
  {
    assert Local(s, n, p) && Local(s, n, m.p) && Pair(s, n, p, m.p);
  }

  lemma {:induction false} PairKept(s: State, n: nat, m: Move, p: nat, j: nat)
    requires Inv(s, n) && m.p < n && Gentle(s, n, m) && p < n && j < n
    ensures Pair(Step(s, n, m), n, p, j)
  {
    assert Pair(s, n, p, j);
    if m.p == p {
      PairKeptByFirst(s, n, m, j);
    } else if m.p == j {
      PairKeptBySecond(s, n, m, p);
    }
  }

  lemma {:induction false} CounterKept(s: State, n: nat, m: Move, p: nat)
    requires Inv(s, n) && m.p < n && Gentle(s, n, m) && p < n
    ensures Counter(Step(s, n, m), n, p)
  {
    assert Counter(s, n, p) && Counter(s, n, m.p) && Local(s, n, p) && Local(s, n, m.p);
    var t := Step(s, n, m);
    if s.Holds(m.p) && s.Holds(p) {
      OneHolder(s, n, m.p, p);
    }
    if t.Holds(m.p) && !s.Holds(m.p) {
      forall q: nat | q < n ensures !s.Holds(q) {
        if s.Holds(q) {
          PairKept(s, n, m, m.p, q);
          PairKept(s, n, m, q, m.p);
          LocalKept(s, n, m, q);
        }
      }
    }
  }

  lemma {:induction false} FreeCounterKept(s: State, n: nat, m: Move)
    requires Inv(s, n) && m.p < n && Gentle(s, n, m)
    ensures var t := Step(s, n, m); (forall p: nat :: p < n ==> !t.Holds(p)) ==> t.sem.recursive == 0
  {
    var t := Step(s, n, m);
    assert Counter(s, n, m.p) && Local(s, n, m.p);
    if forall p: nat :: p < n ==> !t.Holds(p) {
      assert !t.Holds(m.p);
      if !s.Holds(m.p) {
        forall p: nat | p < n ensures !s.Holds(p) {
          assert !t.Holds(p);
        }
        assert s.sem.recursive == 0;
      }
    }
  }

  lemma {:induction false} InvInit(n: nat)
    ensures Inv(Init(n), n)
  {
  }

  /** Every gentle step, by any process, keeps the invariant. */
  lemma {:induction false} InvStep(s: State, n: nat, m: Move)
    requires Inv(s, n) && m.p < n && Gentle(s, n, m)
    ensures Inv(Step(s, n, m), n)
  {
    forall p: nat | p < n ensures Local(Step(s, n, m), n, p) && Counter(Step(s, n, m), n, p) {
      LocalKept(s, n, m, p);
      CounterKept(s, n, m, p);
    }
    forall p: nat, j: nat | p < n && j < n ensures Pair(Step(s, n, m), n, p, j) {
      PairKept(s, n, m, p, j);
    }
    FreeCounterKept(s, n, m);
  }
}
