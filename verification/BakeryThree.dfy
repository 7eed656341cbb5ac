/** The doorway of the C text with its two reads of each ticket (src/fcmanager/fc_semaphore.c:65-66),
    when no more than three processes use the semaphore.

    A copy may lower a ticket here.  What saves the lock is the order of the scans: a ticket can be
    lowered only at the last other slot that the doorway scan meets, and a process that could be
    harmed waits, before it comes to that slot, for a process that is still choosing. */
module BakeryThree {
  import opened Bakery
  import opened BakeryRuns

  /** A process: its slot, what it does next, and its ticket. */
  datatype Proc = Proc(slot: nat, pc: Pc, num: int)

  predicate Scanning(pc: Pc) {
    pc.Compare? || pc.Copy? || pc.Store?
  }

  /** The doorway scan is past slot j. */
  predicate Past(pc: Pc, j: nat) {
    (Scanning(pc) && pc.i > j) || pc.Increment?
  }

  /** The process has not yet read the ticket in slot j that it may copy. */
  predicate Unread(pc: Pc, j: nat) {
    pc.Idle? || pc.Choose? || ((pc.Compare? || pc.Copy?) && pc.i <= j)
  }

  predicate Storing(pc: Pc, j: nat) {
    pc.Store? && pc.i == j
  }

  predicate Copying(pc: Pc, j: nat) {
    pc.Copy? && pc.i == j
  }

  // ---------------------------------------------------------------- steps

  /** The ticket in slot i: only x, y and z have one. */
  function Ticket(x: Proc, y: Proc, z: Proc, i: nat): int {
    if i == x.slot then x.num else if i == y.slot then y.num else if i == z.slot then z.num else 0
  }

  function Busy(x: Proc, y: Proc, z: Proc, i: nat): bool {
    (i == x.slot && Doorway(x.pc)) || (i == y.slot && Doorway(y.pc)) || (i == z.slot && Doorway(z.pc))
  }

  /** A step of x, next to y and z, to x'. */
  predicate Moves(n: nat, x: Proc, y: Proc, z: Proc, x': Proc) {
    && x'.slot == x.slot < n
    && match x.pc
       case Idle => x.num == 0 ==> x' == x.(pc := Choose)
       case Choose => x' == x.(pc := Compare(0))
       case Compare(i) => x' == x.(pc := if Ticket(x, y, z, i) > x.num then Copy(i) else ScanOn(n, i))
       case Copy(i) => x' == x.(pc := Store(i, Ticket(x, y, z, i)))
       case Store(i, v) => x' == x.(num := v, pc := ScanOn(n, i))
       case Increment => x' == x.(num := x.num + 1, pc := Unchoose)
       case Unchoose => x' == x.(pc := TestChoosing(0))
       case TestChoosing(i) => x' == if Busy(x, y, z, i) then x else x.(pc := TestZero(i))
       case TestZero(i) => x' == x.(pc := if Ticket(x, y, z, i) == 0 then WaitOn(n, i) else TestLess(i))
       case TestLess(i) => x' == x.(pc := if Ticket(x, y, z, i) < x.num then TestZero(i) else TestEqual(i))
       case TestEqual(i) => x' == x.(pc := if Ticket(x, y, z, i) == x.num && i < x.slot then TestZero(i)
         else WaitOn(n, i))
       case _ => (Holding(x'.pc) && x'.num == x.num) || (x'.pc.Idle? && x'.num == 0)
  }

  // ---------------------------------------------------------------- the invariant

  /** x by itself, next to the slots j and k.  A process with a slot beyond the table never steps. */
  predicate Alone(n: nat, x: Proc, j: nat, k: nat) {
    && PcOk(x.pc, n) && (x.slot >= n ==> x.pc.Idle?)
    && x.num >= 0
    && (x.pc.Idle? || x.pc.Choose? ==> x.num == 0)
    && (Ticketed(x.pc) ==> x.num > 0)
    && (Scanning(x.pc) && x.pc.i <= j && x.pc.i <= k ==> x.num == 0)
    && (x.pc.Copy? || x.pc.Store? ==> x.pc.i == j || x.pc.i == k)
    && (x.pc.Store? ==> x.pc.v >= 0)
  }

  /** What x, which has seen y not choosing, relies on; z is the third process.  The ticket 1 of the
      process with the smallest slot is ahead of all others anyway. */
  predicate Relies(x: Proc, y: Proc, z: Proc) {
    Saw(x.pc, y.slot) ==>
      && ((x.slot < y.slot && x.slot < z.slot && x.num == 1) || Follows(x, y, z))
      && (Ticketed(y.pc) && Passed(x.pc, y.slot) ==> x.num < y.num || (x.num == y.num && x.slot < y.slot))
      && (Ticketed(y.pc) && x.pc == TestEqual(y.slot) ==> y.num >= x.num)
  }

  /** y, which chooses, will have a ticket behind that of x. */
  predicate Follows(x: Proc, y: Proc, z: Proc) {
    && (Past(y.pc, x.slot) ==> y.num >= x.num)
    && (y.pc.Store? && y.pc.i >= x.slot ==> y.pc.v >= x.num)
    && (Copying(y.pc, z.slot) && z.slot > x.slot ==> z.num >= x.num && (z.pc.Store? ==> z.pc.v >= x.num))
  }

  /** a, when c has the number y from it, has the smallest ticket, or none below y. */
  predicate Reaches(a: Proc, c: nat, y: int) {
    && (Ticketed(a.pc) ==> a.num == 1 || a.num >= y)
    && (Past(a.pc, c) ==> a.num == 0 || a.num >= y)
    && (Storing(a.pc, c) ==> a.pc.v == 0 || a.pc.v >= y)
  }

  /** b waits, has not come to c, and c with the number y will not be stopped by it. */
  predicate Below(b: Proc, c: nat, y: int) {
    Ticketed(b.pc) && !Saw(b.pc, c) && b.num <= y
  }

  /** c, in the last slot, scans between a and b. */
  predicate LastScans(a: Proc, b: Proc, c: Proc) {
    Scanning(c.pc) && a.slot < c.pc.i <= b.slot ==>
      && ((c.pc.Compare? ==> !Below(b, c.slot, c.num)) ==> Reaches(a, c.slot, c.num))
      && (c.num > 1 && c.pc.Compare? && Storing(b.pc, c.slot) ==> b.pc.v >= c.num || b.num <= c.num)
      && (c.num > 1 && !c.pc.Compare? ==>
            && (Ticketed(b.pc) ==> b.num > c.num)
            && (Past(b.pc, c.slot) ==> b.num >= c.num)
            && (Storing(b.pc, c.slot) ==> b.pc.v >= c.num))
  }

  /** c, in the last slot, is about to store the ticket that it has read from a. */
  predicate LastStores(a: Proc, b: Proc, c: Proc) {
    Storing(c.pc, a.slot) ==>
      var y := c.pc.v;
      && (Unread(a.pc, b.slot) ==>
            && (Past(b.pc, a.slot) ==> b.num == 0 || b.num >= y)
            && (Storing(b.pc, a.slot) || Storing(b.pc, c.slot) ==> b.pc.v == 0 || b.pc.v >= y)
            && (Saw(b.pc, c.slot) ==> b.num >= y))
      && (Saw(a.pc, c.slot) ==> a.num == y)
  }

  /** Then a will not fall behind it, unless b stops c first. */
  predicate LastStoresLow(a: Proc, b: Proc, c: Proc) {
    Storing(c.pc, a.slot) && !Below(b, c.slot, c.pc.v) ==>
      && Reaches(a, c.slot, c.pc.v)
      && (a.pc.Compare? && a.pc.i > b.slot ==> a.num == 0 || a.num >= c.pc.v)
      && (Storing(a.pc, b.slot) ==> a.pc.v == 0 || a.pc.v >= c.pc.v)
  }

  predicate LastStoresBefore(a: Proc, b: Proc, c: Proc) {
    Storing(c.pc, a.slot) && c.pc.v > 1 ==>
      && (Storing(b.pc, c.slot) ==> b.pc.v >= c.pc.v || b.num <= c.pc.v)
      && (Copying(b.pc, c.slot) ==> b.num <= c.pc.v)
  }

  /** What a has read from c, which has not yet begun to choose, or has a ticket and has seen a. */
  predicate FirstReads(a: Proc, c: Proc) {
    && (Unread(c.pc, a.slot) && Storing(a.pc, c.slot) ==> a.pc.v == 0 || a.pc.v >= a.num)
    && (Saw(c.pc, a.slot) && Copying(a.pc, c.slot) ==> c.num > a.num)
    && (Saw(c.pc, a.slot) && Storing(a.pc, c.slot) ==> a.pc.v >= a.num)
  }

  /** What a has read from b, which scans. */
  predicate FirstReadsSecond(a: Proc, b: Proc, c: Proc) {
    Storing(a.pc, b.slot) ==>
      && (Scanning(b.pc) && a.slot < b.pc.i <= c.slot ==> a.pc.v == 0 || a.pc.v >= b.num)
      && (Storing(b.pc, a.slot) ==> a.pc.v == 0 || a.pc.v >= b.pc.v)
  }

  predicate SecondReads(b: Proc, c: Proc) {
    && (Saw(c.pc, b.slot) && Copying(b.pc, c.slot) ==> c.num > b.num)
    && (Saw(c.pc, b.slot) && Storing(b.pc, c.slot) ==> b.pc.v == c.num >= b.num)
  }

  /** a, when b has the number m and reads from c, has at least that number, or no more than 1. */
  predicate Keeps(a: Proc, b: Proc, c: Proc, m: int) {
    var least := a.num + if Doorway(a.pc) && !a.pc.Unchoose? then 1 else 0;
    && (least > 1 ==> m <= a.num || (Storing(b.pc, c.slot) && !Saw(c.pc, b.slot) && b.pc.v >= least))
    && (Storing(a.pc, c.slot) ==> a.pc.v == 0 || a.pc.v >= m)
  }

  /** b reads from c, which has not yet begun to choose, or has a ticket and has seen b. */
  predicate SecondBehind(a: Proc, b: Proc, c: Proc) {
    (Unread(c.pc, a.slot) || Saw(c.pc, b.slot)) && (Copying(b.pc, c.slot) || Storing(b.pc, c.slot)) ==>
      Keeps(a, b, c, b.num)
  }

  predicate SecondFollows(a: Proc, b: Proc, c: Proc) {
    Saw(c.pc, b.slot) ==>
      && (b.pc.Compare? && a.slot < b.pc.i <= c.slot && c.num > b.num ==> Keeps(a, b, c, b.num))
      && (Storing(b.pc, a.slot) && c.num > b.pc.v ==> Keeps(a, b, c, b.pc.v))
  }

  predicate Locals(n: nat, a: Proc, b: Proc, c: Proc) {
    Alone(n, a, b.slot, c.slot) && Alone(n, b, a.slot, c.slot) && Alone(n, c, a.slot, b.slot)
  }

  predicate Reliances(a: Proc, b: Proc, c: Proc) {
    && Relies(a, b, c) && Relies(a, c, b)
    && Relies(b, a, c) && Relies(b, c, a)
    && Relies(c, a, b) && Relies(c, b, a)
  }

  predicate Reads(a: Proc, b: Proc, c: Proc) {
    && LastScans(a, b, c) && LastStores(a, b, c) && LastStoresLow(a, b, c) && LastStoresBefore(a, b, c)
    && FirstReads(a, c) && FirstReadsSecond(a, b, c) && SecondReads(b, c)
    && SecondBehind(a, b, c) && SecondFollows(a, b, c)
  }

  predicate Trio(n: nat, a: Proc, b: Proc, c: Proc) {
    a.slot < b.slot < c.slot && Locals(n, a, b, c) && Reliances(a, b, c) && Reads(a, b, c)
  }

  // ---------------------------------------------------------------- steps keep it

  lemma {:induction false} FirstKeepsLocals(n: nat, a: Proc, b: Proc, c: Proc, a': Proc)
    requires Trio(n, a, b, c) && Moves(n, a, b, c, a')
    ensures Locals(n, a', b, c)
  {
  }

  lemma {:induction false} SecondKeepsLocals(n: nat, a: Proc, b: Proc, c: Proc, b': Proc)
    requires Trio(n, a, b, c) && Moves(n, b, a, c, b')
    ensures Locals(n, a, b', c)
  {
  }

  lemma {:induction false} LastKeepsLocals(n: nat, a: Proc, b: Proc, c: Proc, c': Proc)
    requires Trio(n, a, b, c) && Moves(n, c, a, b, c')
    ensures Locals(n, a, b, c')
  {
  }

  lemma {:induction false} FirstKeepsReliancesOfFirst(n: nat, a: Proc, b: Proc, c: Proc, a': Proc)
    requires Trio(n, a, b, c) && Moves(n, a, b, c, a')
    ensures Relies(a', b, c) && Relies(a', c, b)
  {
  }

  lemma {:induction false} FirstKeepsReliancesOfSecond(n: nat, a: Proc, b: Proc, c: Proc, a': Proc)
    requires Trio(n, a, b, c) && Moves(n, a, b, c, a')
    ensures Relies(b, a', c) && Relies(b, c, a')
  {
  }

  lemma {:induction false} FirstKeepsReliancesOfLast(n: nat, a: Proc, b: Proc, c: Proc, a': Proc)
    requires Trio(n, a, b, c) && Moves(n, a, b, c, a')
    ensures Relies(c, a', b) && Relies(c, b, a')
  {
  }

  lemma {:induction false} FirstKeepsScans(n: nat, a: Proc, b: Proc, c: Proc, a': Proc)
    requires Trio(n, a, b, c) && Moves(n, a, b, c, a')
    ensures LastScans(a', b, c)
  {
  }

  lemma {:induction false} FirstKeepsStores(n: nat, a: Proc, b: Proc, c: Proc, a': Proc)
    requires Trio(n, a, b, c) && Moves(n, a, b, c, a')
    ensures LastStores(a', b, c) && LastStoresBefore(a', b, c)
  {
  }

  lemma {:induction false} FirstKeepsStoresLow(n: nat, a: Proc, b: Proc, c: Proc, a': Proc)
    requires Trio(n, a, b, c) && Moves(n, a, b, c, a')
    ensures LastStoresLow(a', b, c)
  {
  }

  lemma {:induction false} FirstKeepsFirstReads(n: nat, a: Proc, b: Proc, c: Proc, a': Proc)
    requires Trio(n, a, b, c) && Moves(n, a, b, c, a')
    ensures FirstReads(a', c) && FirstReadsSecond(a', b, c) && SecondReads(b, c)
  {
  }

  lemma {:induction false} FirstKeepsSecondBehind(n: nat, a: Proc, b: Proc, c: Proc, a': Proc)
    requires Trio(n, a, b, c) && Moves(n, a, b, c, a')
    ensures SecondBehind(a', b, c)
  {
  }

  lemma {:induction false} FirstKeepsSecondFollows(n: nat, a: Proc, b: Proc, c: Proc, a': Proc)
    requires Trio(n, a, b, c) && Moves(n, a, b, c, a')
    ensures SecondFollows(a', b, c)
  {
  }

  lemma {:induction false} SecondKeepsReliancesOfFirst(n: nat, a: Proc, b: Proc, c: Proc, b': Proc)
    requires Trio(n, a, b, c) && Moves(n, b, a, c, b')
    ensures Relies(a, b', c) && Relies(a, c, b')
  {
  }

  lemma {:induction false} SecondKeepsReliancesOfSecond(n: nat, a: Proc, b: Proc, c: Proc, b': Proc)
    requires Trio(n, a, b, c) && Moves(n, b, a, c, b')
    ensures Relies(b', a, c) && Relies(b', c, a)
  {
  }

  lemma {:induction false} SecondKeepsReliancesOfLast(n: nat, a: Proc, b: Proc, c: Proc, b': Proc)
    requires Trio(n, a, b, c) && Moves(n, b, a, c, b')
    ensures Relies(c, a, b') && Relies(c, b', a)
  {
  }

  lemma {:induction false} SecondKeepsScans(n: nat, a: Proc, b: Proc, c: Proc, b': Proc)
    requires Trio(n, a, b, c) && Moves(n, b, a, c, b')
    ensures LastScans(a, b', c)
  {
  }

  lemma {:induction false} SecondKeepsStores(n: nat, a: Proc, b: Proc, c: Proc, b': Proc)
    requires Trio(n, a, b, c) && Moves(n, b, a, c, b')
    ensures LastStores(a, b', c) && LastStoresBefore(a, b', c)
  {
  }

  lemma {:induction false} SecondKeepsStoresLow(n: nat, a: Proc, b: Proc, c: Proc, b': Proc)
    requires Trio(n, a, b, c) && Moves(n, b, a, c, b')
    ensures LastStoresLow(a, b', c)
  {
  }

  lemma {:induction false} SecondKeepsFirstReads(n: nat, a: Proc, b: Proc, c: Proc, b': Proc)
    requires Trio(n, a, b, c) && Moves(n, b, a, c, b')
    ensures FirstReads(a, c) && FirstReadsSecond(a, b', c) && SecondReads(b', c)
  {
  }

  lemma {:induction false} SecondKeepsSecondBehind(n: nat, a: Proc, b: Proc, c: Proc, b': Proc)
    requires Trio(n, a, b, c) && Moves(n, b, a, c, b')
    ensures SecondBehind(a, b', c)
  {
  }

  lemma {:induction false} SecondKeepsSecondFollows(n: nat, a: Proc, b: Proc, c: Proc, b': Proc)
    requires Trio(n, a, b, c) && Moves(n, b, a, c, b')
    ensures SecondFollows(a, b', c)
  {
  }

  lemma {:induction false} LastKeepsReliancesOfFirst(n: nat, a: Proc, b: Proc, c: Proc, c': Proc)
    requires Trio(n, a, b, c) && Moves(n, c, a, b, c')
    ensures Relies(a, b, c') && Relies(a, c', b)
  {
  }

  lemma {:induction false} LastKeepsReliancesOfSecond(n: nat, a: Proc, b: Proc, c: Proc, c': Proc)
    requires Trio(n, a, b, c) && Moves(n, c, a, b, c')
    ensures Relies(b, a, c') && Relies(b, c', a)
  {
  }

  lemma {:induction false} LastKeepsReliancesOfLast(n: nat, a: Proc, b: Proc, c: Proc, c': Proc)
    requires Trio(n, a, b, c) && Moves(n, c, a, b, c')
    ensures Relies(c', a, b) && Relies(c', b, a)
  {
  }

  lemma {:induction false} LastKeepsScans(n: nat, a: Proc, b: Proc, c: Proc, c': Proc)
    requires Trio(n, a, b, c) && Moves(n, c, a, b, c')
    ensures LastScans(a, b, c')
  {
  }

  lemma {:induction false} LastKeepsStores(n: nat, a: Proc, b: Proc, c: Proc, c': Proc)
    requires Trio(n, a, b, c) && Moves(n, c, a, b, c')
    ensures LastStores(a, b, c') && LastStoresBefore(a, b, c')
  {
  }

  lemma {:induction false} LastKeepsStoresLow(n: nat, a: Proc, b: Proc, c: Proc, c': Proc)
    requires Trio(n, a, b, c) && Moves(n, c, a, b, c')
    ensures LastStoresLow(a, b, c')
  {
  }

  lemma {:induction false} LastKeepsFirstReads(n: nat, a: Proc, b: Proc, c: Proc, c': Proc)
    requires Trio(n, a, b, c) && Moves(n, c, a, b, c')
    ensures FirstReads(a, c') && FirstReadsSecond(a, b, c') && SecondReads(b, c')
  {
  }

  lemma {:induction false} LastKeepsSecondBehind(n: nat, a: Proc, b: Proc, c: Proc, c': Proc)
    requires Trio(n, a, b, c) && Moves(n, c, a, b, c')
    ensures SecondBehind(a, b, c')
  {
  }

  lemma {:induction false} LastKeepsSecondFollows(n: nat, a: Proc, b: Proc, c: Proc, c': Proc)
    requires Trio(n, a, b, c) && Moves(n, c, a, b, c')
    ensures SecondFollows(a, b, c')
  {
  }

  lemma {:induction false} FirstKeeps(n: nat, a: Proc, b: Proc, c: Proc, a': Proc)
    requires Trio(n, a, b, c) && Moves(n, a, b, c, a')
    ensures Trio(n, a', b, c)
  {
    FirstKeepsLocals(n, a, b, c, a');
    FirstKeepsReliancesOfFirst(n, a, b, c, a');
    FirstKeepsReliancesOfSecond(n, a, b, c, a');
    FirstKeepsReliancesOfLast(n, a, b, c, a');
    FirstKeepsScans(n, a, b, c, a');
    FirstKeepsStores(n, a, b, c, a');
    FirstKeepsStoresLow(n, a, b, c, a');
    FirstKeepsFirstReads(n, a, b, c, a');
    FirstKeepsSecondBehind(n, a, b, c, a');
    FirstKeepsSecondFollows(n, a, b, c, a');
  }

  lemma {:induction false} SecondKeeps(n: nat, a: Proc, b: Proc, c: Proc, b': Proc)
    requires Trio(n, a, b, c) && Moves(n, b, a, c, b')
    ensures Trio(n, a, b', c)
  {
    SecondKeepsLocals(n, a, b, c, b');
    SecondKeepsReliancesOfFirst(n, a, b, c, b');
    SecondKeepsReliancesOfSecond(n, a, b, c, b');
    SecondKeepsReliancesOfLast(n, a, b, c, b');
    SecondKeepsScans(n, a, b, c, b');
    SecondKeepsStores(n, a, b, c, b');
    SecondKeepsStoresLow(n, a, b, c, b');
    SecondKeepsFirstReads(n, a, b, c, b');
    SecondKeepsSecondBehind(n, a, b, c, b');
    SecondKeepsSecondFollows(n, a, b, c, b');
  }

  lemma {:induction false} LastKeeps(n: nat, a: Proc, b: Proc, c: Proc, c': Proc)
    requires Trio(n, a, b, c) && Moves(n, c, a, b, c')
    ensures Trio(n, a, b, c')
  {
    LastKeepsLocals(n, a, b, c, c');
    LastKeepsReliancesOfFirst(n, a, b, c, c');
    LastKeepsReliancesOfSecond(n, a, b, c, c');
    LastKeepsReliancesOfLast(n, a, b, c, c');
    LastKeepsScans(n, a, b, c, c');
    LastKeepsStores(n, a, b, c, c');
    LastKeepsStoresLow(n, a, b, c, c');
    LastKeepsFirstReads(n, a, b, c, c');
    LastKeepsSecondBehind(n, a, b, c, c');
    LastKeepsSecondFollows(n, a, b, c, c');
  }

  // ---------------------------------------------------------------- runs of three processes

  /** The process in a slot; one beyond the table is idle. */
  function ProcAt(s: State, p: nat): Proc {
    if p < |s.pc| && p < |s.sem.number| then Proc(p, s.pc[p], s.sem.number[p]) else Proc(p, Idle, 0)
  }

  predicate OthersIdle(s: State, n: nat, a: nat, b: nat, c: nat)
    requires s.Shaped(n)
  {
    forall p: nat :: p < n && p != a && p != b && p != c ==> s.pc[p].Idle? && s.sem.number[p] == 0
  }

  /** Only the processes a, b and c have ever stepped. */
  ghost predicate OnlyThree(s: State, n: nat, a: nat, b: nat, c: nat) {
    && s.Shaped(n) && Announced(s, n) && OthersIdle(s, n, a, b, c)
    && Trio(n, ProcAt(s, a), ProcAt(s, b), ProcAt(s, c))
  }

  lemma {:induction false} StepMoves(s: State, n: nat, m: Move, x: nat, y: nat, z: nat)
    requires s.Shaped(n) && Announced(s, n) && m.p == x < n && x != y && y != z && z != x
    requires OthersIdle(s, n, x, y, z)
    requires (s.pc[x].Increment? ==> s.sem.number[x] < SHORT_MAX) && (Ticketed(s.pc[x]) ==> s.sem.number[x] > 0)
    ensures var t := Step(s, n, m);
      && Moves(n, ProcAt(s, x), ProcAt(s, y), ProcAt(s, z), ProcAt(t, x))
      && ProcAt(t, y) == ProcAt(s, y) && ProcAt(t, z) == ProcAt(s, z)
  {
  }

  lemma {:induction false} OthersStayIdle(s: State, n: nat, a: nat, b: nat, c: nat, m: Move)
    requires s.Shaped(n) && OthersIdle(s, n, a, b, c) && m.p < n && (m.p == a || m.p == b || m.p == c)
    ensures OthersIdle(Step(s, n, m), n, a, b, c)
  {
  }

  lemma {:induction false} TrioStep(s: State, n: nat, a: nat, b: nat, c: nat, m: Move)
    requires OnlyThree(s, n, a, b, c) && m.p < n && (m.p == a || m.p == b || m.p == c)
    requires s.pc[m.p].Increment? ==> s.sem.number[m.p] < SHORT_MAX
    ensures var t := Step(s, n, m); Trio(n, ProcAt(t, a), ProcAt(t, b), ProcAt(t, c))
  {
    var t := Step(s, n, m);
    var x, y, z := ProcAt(s, a), ProcAt(s, b), ProcAt(s, c);
    TicketedPositive(n, x, y, z);
    if m.p == a {
      StepMoves(s, n, m, a, b, c);
      FirstKeeps(n, x, y, z, ProcAt(t, a));
    } else if m.p == b {
      StepMoves(s, n, m, b, a, c);
      SecondKeeps(n, x, y, z, ProcAt(t, b));
    } else {
      StepMoves(s, n, m, c, a, b);
      LastKeeps(n, x, y, z, ProcAt(t, c));
    }
  }

  lemma {:induction false} TicketedPositive(n: nat, a: Proc, b: Proc, c: Proc)
    requires Trio(n, a, b, c)
    ensures (Ticketed(a.pc) ==> a.num > 0) && (Ticketed(b.pc) ==> b.num > 0) && (Ticketed(c.pc) ==> c.num > 0)
  {
  }

  lemma {:induction false} ThreeStep(s: State, n: nat, a: nat, b: nat, c: nat, m: Move)
    requires OnlyThree(s, n, a, b, c) && m.p < n && (m.p == a || m.p == b || m.p == c)
    requires s.pc[m.p].Increment? ==> s.sem.number[m.p] < SHORT_MAX
    ensures OnlyThree(Step(s, n, m), n, a, b, c)
  {
    AnnouncedStep(s, n, m);
    OthersStayIdle(s, n, a, b, c, m);
    TrioStep(s, n, a, b, c, m);
  }

  lemma {:induction false} ThreeInit(n: nat, a: nat, b: nat, c: nat)
    requires a < b < c
    ensures OnlyThree(Init(n), n, a, b, c)
  {
  }

  lemma {:induction false} ThreeAt(n: nat, b: seq<State>, ms: seq<Move>, x: nat, y: nat, z: nat, t: nat)
    requires Run(n, b, ms) && Spaced(n, b, ms) && t <= |ms| && x < y < z
    requires forall k :: 0 <= k < |ms| ==> ms[k].p == x || ms[k].p == y || ms[k].p == z
    ensures OnlyThree(b[t], n, x, y, z)
  {
    if t == 0 {
      ThreeInit(n, x, y, z);
    } else {
      ThreeAt(n, b, ms, x, y, z, t - 1);
      FitsAt(n, b, ms, t - 1);
      ThreeStep(b[t - 1], n, x, y, z, ms[t - 1]);
    }
  }

  lemma {:induction false} OneOfThree(s: State, n: nat, a: nat, b: nat, c: nat, p: nat, q: nat)
    requires OnlyThree(s, n, a, b, c) && s.Holds(p) && s.Holds(q)
    ensures p == q
  {
    assert Reliances(ProcAt(s, a), ProcAt(s, b), ProcAt(s, c));
  }

  lemma {:induction false} FewMovers(ms: seq<Move>, k: nat)
    requires forall i :: 0 <= i < |ms| ==> ms[i].p < k
    ensures |Movers(ms)| <= k
  {
    UpToHas(k);
    Smaller(Movers(ms), UpTo(k));
  }

  /** The first k slots. */
  function UpTo(k: nat): set<nat> {
    if k == 0 then {} else UpTo(k - 1) + {k - 1}
  }

  lemma {:induction false} UpToHas(k: nat)
    ensures |UpTo(k)| == k && forall p: nat :: p < k <==> p in UpTo(k)
  {
    if k > 0 {
      UpToHas(k - 1);
    }
  }

  lemma {:induction false} Smaller<T>(s: set<T>, t: set<T>)
    requires s <= t
    ensures |s| <= |t|
  {
    assert t == s + (t - s);
  }

  /** Numbers that cover a set of at most three. */
  lemma {:induction false} Cover(s: set<nat>) returns (x: nat, y: nat, z: nat)
    requires |s| <= 3
    ensures x < y < z && forall p :: p in s ==> p == x || p == y || p == z
  {
    var u, v, w := Three(s, 0);
    var lo, hi := if u < v then u else v, if u < v then v else u;
    x := if w < lo then w else lo;
    z := if w > hi then w else hi;
    y := u + v + w - x - z;
    if x == y && y == z {
      y, z := x + 1, x + 2;
    } else if x == y {
      y, z := z, z + 1;
    } else if y == z {
      z := y + 1;
    }
  }

  lemma {:induction false} Three<T>(s: set<T>, other: T) returns (u: T, v: T, w: T)
    requires |s| <= 3
    ensures forall p :: p in s ==> p == u || p == v || p == w
  {
    var s1, s2;
    u, s1 := One(s, other);
    v, s2 := One(s1, other);
    var s3;
    w, s3 := One(s2, other);
    assert s3 == {};
  }

  lemma {:induction false} One<T>(s: set<T>, other: T) returns (u: T, r: set<T>)
    ensures (forall p :: p in s ==> p == u || p in r) && |r| == if |s| == 0 then 0 else |s| - 1
  {
    if s == {} {
      return other, {};
    }
    u :| u in s;
    r := s - {u};
  }

  /** Three processes are safe with the two reads of the C text: in every run in which at most three
      processes step, no two of them hold the lock at once. */
  lemma {:induction false} ThreeExclude(n: nat, b: seq<State>, ms: seq<Move>)
    requires Run(n, b, ms) && Spaced(n, b, ms) && |Movers(ms)| <= 3
    ensures Exclusive(b)
  {
    var x, y, z := Cover(Movers(ms));
    assert forall k :: 0 <= k < |ms| ==> ms[k].p in Movers(ms);
    forall t: nat, p: nat, q: nat | t < |b| && b[t].Holds(p) && b[t].Holds(q) ensures p == q {
      ThreeAt(n, b, ms, x, y, z, t);
      OneOfThree(b[t], n, x, y, z, p, q);
    }
  }
}
