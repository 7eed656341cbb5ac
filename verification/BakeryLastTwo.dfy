/** The doorway of the C text with its two reads of each ticket (src/fcmanager/fc_semaphore.c:65-66), with
    any number of processes: what it still ensures.

    A copy lowers a ticket below that of a waiting process only at a slot behind that process.  So the two
    processes with the largest slots, of all that use the semaphore, exclude each other. */
module BakeryLastTwo {
  import opened Bakery
  import opened BakeryRuns

  /** Nobody uses the slots from k on. */
  ghost predicate Upto(s: State, n: nat, k: nat)
    requires s.Shaped(n)
  {
    forall p: nat :: k <= p < n ==> s.pc[p].Idle?
  }

  /** Process j, after its scan has been at slot p, has p's ticket in sight, also where it stores. */
  predicate Behind(s: State, n: nat, p: nat, j: nat)
    requires s.Shaped(n) && p < n && j < n
  {
    Saw(s.pc[p], j) ==>
      && Catching(s, n, p, j)
      && (s.pc[j].Store? && s.pc[j].i >= p ==> s.pc[j].v >= s.sem.number[p])
      && !(s.pc[j].Copy? && s.pc[j].i > p)
      && (Ticketed(s.pc[j]) && Passed(s.pc[p], j) ==> Before(s, n, p, j))
      && (Ticketed(s.pc[j]) && s.pc[p] == TestEqual(j) ==> s.sem.number[j] >= s.sem.number[p])
  }

  /** x and y are the two largest slots in use. */
  ghost predicate LastTwo(s: State, n: nat, x: nat, y: nat) {
    && AllSane(s, n) && x < y < n && Upto(s, n, y + 1)
    && (forall p: nat :: x < p < y ==> s.pc[p].Idle?)
    && Behind(s, n, x, y) && Behind(s, n, y, x)
  }

  /** No slot behind both has a ticket that one of them could copy. */
  lemma {:induction false} NothingBeyond(s: State, n: nat, x: nat, y: nat, j: nat)
    requires LastTwo(s, n, x, y) && (j == x || j == y) && s.pc[j].Compare? && s.pc[j].i > x + y - j
    ensures s.sem.number[s.pc[j].i] <= s.sem.number[j]
  {
    assert Sane(s, n, j) && Sane(s, n, s.pc[j].i);
  }

  lemma {:induction false} FirstStaysAhead(s: State, n: nat, x: nat, y: nat, c: Call)
    requires LastTwo(s, n, x, y) && Small(s, n, Move(x, c))
    ensures Behind(Step(s, n, Move(x, c)), n, x, y)
  {
    assert Sane(s, n, x) && Sane(s, n, y);
  }

  lemma {:induction false} FirstStaysBehind(s: State, n: nat, x: nat, y: nat, c: Call)
    requires LastTwo(s, n, x, y) && Small(s, n, Move(x, c))
    ensures Behind(Step(s, n, Move(x, c)), n, y, x)
  {
    assert Sane(s, n, x) && Sane(s, n, y);
    if s.pc[x].Compare? && s.pc[x].i > y {
      NothingBeyond(s, n, x, y, x);
    }
  }

  lemma {:induction false} SecondStaysAhead(s: State, n: nat, x: nat, y: nat, c: Call)
    requires LastTwo(s, n, x, y) && Small(s, n, Move(y, c))
    ensures Behind(Step(s, n, Move(y, c)), n, y, x)
  {
    assert Sane(s, n, x) && Sane(s, n, y);
  }

  lemma {:induction false} SecondStaysBehind(s: State, n: nat, x: nat, y: nat, c: Call)
    requires LastTwo(s, n, x, y) && Small(s, n, Move(y, c))
    ensures Behind(Step(s, n, Move(y, c)), n, x, y)
  {
    assert Sane(s, n, x) && Sane(s, n, y);
    if s.pc[y].Compare? && s.pc[y].i > x {
      NothingBeyond(s, n, x, y, y);
    }
  }

  lemma {:induction false} OtherKeeps(s: State, n: nat, x: nat, y: nat, m: Move)
    requires LastTwo(s, n, x, y) && m.p < x && Small(s, n, m)
    ensures Behind(Step(s, n, m), n, x, y) && Behind(Step(s, n, m), n, y, x)
  {
  }

  lemma {:induction false} LastTwoStep(s: State, n: nat, x: nat, y: nat, m: Move)
    requires LastTwo(s, n, x, y) && m.p <= y && (m.p <= x || m.p == y) && Small(s, n, m)
    ensures LastTwo(Step(s, n, m), n, x, y)
  {
    SaneStep(s, n, m);
    if m.p == x {
      FirstStaysAhead(s, n, x, y, m.call);
      FirstStaysBehind(s, n, x, y, m.call);
    } else if m.p == y {
      SecondStaysAhead(s, n, x, y, m.call);
      SecondStaysBehind(s, n, x, y, m.call);
    } else {
      OtherKeeps(s, n, x, y, m);
    }
  }

  lemma {:induction false} LastTwoAt(n: nat, b: seq<State>, ms: seq<Move>, x: nat, y: nat, t: nat)
    requires Run(n, b, ms) && Spaced(n, b, ms) && x < y < n && t <= |ms|
    requires forall k :: 0 <= k < |ms| ==> ms[k].p <= x || ms[k].p == y
    ensures LastTwo(b[t], n, x, y)
  {
    if t > 0 {
      LastTwoAt(n, b, ms, x, y, t - 1);
      FitsAt(n, b, ms, t - 1);
      LastTwoStep(b[t - 1], n, x, y, ms[t - 1]);
    }
  }

  /** With any number of processes, and copies that lower tickets, the two with the largest slots never
      hold the lock at once. */
  lemma {:induction false} LastTwoExclude(n: nat, b: seq<State>, ms: seq<Move>, x: nat, y: nat, t: nat)
    requires Run(n, b, ms) && Spaced(n, b, ms) && x < y < n && t <= |ms|
    requires forall k :: 0 <= k < |ms| ==> ms[k].p <= x || ms[k].p == y
    ensures !(b[t].Holds(x) && b[t].Holds(y))
  {
    LastTwoAt(n, b, ms, x, y, t);
  }
}
