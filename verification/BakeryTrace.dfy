/** A run of four processes of the lock, by which two of them come to hold it
    (src/fcmanager/fc_semaphore.c:63-92).  It is played leg by leg: in each of them one process steps
    alone. */
module BakeryTrace {
  import opened Bakery
  import opened BakeryRuns

  /** A state of four processes given by tickets and program counters; nobody nests. */
  function At(t: seq<int>, q: seq<Pc>): (s: State)
    requires |t| == 4 && |q| == 4 && forall p :: 0 <= p < 4 ==> PcOk(q[p], 4)
    ensures s.Shaped(4)
  {
    State(Sem([Doorway(q[0]), Doorway(q[1]), Doorway(q[2]), Doorway(q[3])], t, 0), q,
          [Depth(q[0]), Depth(q[1]), Depth(q[2]), Depth(q[3])])
  }

  function Depth(pc: Pc): int {
    if Holding(pc) then 1 else 0
  }

  /** k steps of p alone; whenever it holds the lock it puts it back. */
  function Alone(s: State, p: nat, k: nat): (t: State)
    requires s.Shaped(4) && p < 4
    ensures t.Shaped(4)
    decreases k
  {
    if k == 0 then s else Alone(Step(s, 4, Move(p, Put)), p, k - 1)
  }

  ghost predicate Reached(s: State, len: nat) {
    exists b: seq<State>, ms: seq<Move> :: Run(4, b, ms) && Putting(ms) && |ms| == len && b[len] == s
  }

  lemma {:induction false} OneMore(s: State, len: nat, m: Move)
    requires Reached(s, len) && s.Shaped(4) && m.p < 4 && m.call.Put?
    ensures Reached(Step(s, 4, m), len + 1)
  {
    var b: seq<State>, ms: seq<Move> :| Run(4, b, ms) && Putting(ms) && |ms| == len && b[len] == s;
    RunMore(4, b, ms, m);
  }

  lemma {:induction false} Leg(s: State, len: nat, p: nat, k: nat)
    requires Reached(s, len) && s.Shaped(4) && p < 4
    ensures Reached(Alone(s, p, k), len + k)
    decreases k
  {
    if k > 0 {
      OneMore(s, len, Move(p, Put));
      Leg(Step(s, 4, Move(p, Put)), len + 1, p, k - 1);
    }
  }

  // The states at which the processes change turns, and some between: first the tickets, then
  // where each process stands.

  const S0 := At([0, 0, 0, 0], [Idle, Idle, Idle, Idle])
  const S1 := At([0, 0, 0, 0], [Compare(1), Idle, Idle, Idle])
  const S2 := At([0, 0, 0, 0], [Increment, Idle, Idle, Idle])
  const S3 := At([1, 0, 0, 0], [TestZero(0), Idle, Idle, Idle])
  const S4 := At([1, 0, 0, 0], [TestChoosing(1), Idle, Idle, Idle])
  const S5 := At([1, 0, 0, 0], [TestZero(2), Idle, Idle, Idle])
  const S6 := At([1, 0, 0, 0], [Critical, Idle, Idle, Idle])
  const S7 := At([1, 0, 0, 0], [Critical, Idle, Copy(0), Idle])
  const S8 := At([1, 0, 0, 0], [Critical, Idle, Store(0, 1), Idle])
  const S9 := At([0, 0, 0, 0], [Idle, Idle, Store(0, 1), Idle])
  const S10 := At([0, 0, 1, 0], [Idle, Idle, Compare(3), Idle])
  const S11 := At([0, 0, 2, 0], [Idle, Idle, TestChoosing(0), Idle])
  const S12 := At([0, 0, 2, 0], [Idle, Idle, TestZero(1), Idle])
  const S13 := At([0, 0, 2, 0], [Idle, Idle, TestLess(2), Idle])
  const S14 := At([0, 0, 2, 0], [Idle, Idle, TestZero(3), Idle])
  const S15 := At([0, 0, 2, 0], [Idle, Idle, Critical, Idle])
  const S16 := At([0, 0, 2, 0], [Idle, Idle, Critical, Compare(1)])
  const S17 := At([0, 0, 2, 0], [Idle, Idle, Critical, Store(2, 2)])
  const S18 := At([0, 0, 2, 3], [Idle, Idle, Critical, Unchoose])
  const S19 := At([0, 0, 2, 3], [Idle, Idle, Critical, TestChoosing(1)])
  const S20 := At([0, 0, 2, 3], [Idle, Idle, Critical, TestZero(1)])
  const S21 := At([0, 0, 2, 3], [Idle, Compare(1), Critical, TestZero(1)])
  const S22 := At([0, 0, 2, 3], [Idle, Store(2, 2), Critical, TestZero(1)])
  const S23 := At([0, 0, 0, 3], [Idle, Store(2, 2), Idle, TestZero(1)])
  const S24 := At([0, 0, 0, 3], [Idle, Store(2, 2), Idle, TestChoosing(2)])
  const S25 := At([0, 2, 0, 3], [Idle, Copy(3), Idle, TestChoosing(2)])
  const S26 := At([0, 2, 0, 3], [Idle, Copy(3), Idle, TestZero(2)])
  const S27 := At([0, 2, 0, 3], [Idle, Copy(3), Compare(1), TestZero(2)])
  const S28 := At([0, 2, 0, 3], [Idle, Copy(3), Store(1, 2), TestZero(2)])
  const S29 := At([0, 2, 0, 3], [Idle, Copy(3), Store(1, 2), TestChoosing(3)])
  const S30 := At([0, 2, 2, 3], [Idle, Copy(3), Copy(3), TestChoosing(3)])
  const S31 := At([0, 2, 2, 3], [Idle, Copy(3), Copy(3), TestEqual(3)])
  const S32 := At([0, 2, 2, 0], [Idle, Copy(3), Copy(3), Idle])
  const S33 := At([0, 1, 2, 0], [Idle, Unchoose, Copy(3), Idle])
  const S34 := At([0, 1, 2, 0], [Idle, TestZero(0), Copy(3), Idle])
  const S35 := At([0, 1, 2, 0], [Compare(1), TestZero(0), Copy(3), Idle])
  const S36 := At([1, 1, 2, 0], [Compare(2), TestZero(0), Copy(3), Idle])
  const S37 := At([1, 1, 2, 0], [Copy(2), TestZero(0), Copy(3), Idle])
  const S38 := At([1, 1, 0, 0], [Copy(2), TestZero(0), Increment, Idle])
  const S39 := At([0, 1, 0, 0], [Increment, TestZero(0), Increment, Idle])
  const S40 := At([0, 1, 0, 0], [Increment, TestChoosing(1), Increment, Idle])
  const S41 := At([1, 1, 0, 0], [TestZero(0), TestChoosing(1), Increment, Idle])
  const S42 := At([1, 1, 0, 0], [TestChoosing(1), TestChoosing(1), Increment, Idle])
  const S43 := At([1, 1, 0, 0], [TestEqual(1), TestChoosing(1), Increment, Idle])
  const S44 := At([1, 1, 0, 0], [TestChoosing(2), TestChoosing(1), Increment, Idle])
  const S45 := At([1, 1, 0, 0], [TestChoosing(2), TestEqual(1), Increment, Idle])
  const S46 := At([1, 1, 0, 0], [TestChoosing(2), TestChoosing(2), Increment, Idle])
  const S47 := At([1, 1, 1, 0], [TestChoosing(2), TestChoosing(2), TestChoosing(0), Idle])
  const S48 := At([1, 1, 1, 0], [TestEqual(2), TestChoosing(2), TestChoosing(0), Idle])
  const S49 := At([1, 1, 1, 0], [Critical, TestChoosing(2), TestChoosing(0), Idle])
  const S50 := At([1, 1, 1, 0], [Critical, TestEqual(2), TestChoosing(0), Idle])
  const S51 := At([1, 1, 1, 0], [Critical, Critical, TestChoosing(0), Idle])

  lemma {:induction false} Start()
    ensures Reached(S0, 0)
  {
    assert Run(4, [Init(4)], []) && [Init(4)][0] == S0;
  }

  lemma {:induction false} Act1()
    ensures Reached(S1, 3)
  {
    Start();
    Leg(S0, 0, 0, 3);
  }

  lemma {:induction false} Act2()
    ensures Reached(S2, 6)
  {
    Act1();
    Leg(S1, 3, 0, 3);
  }

  lemma {:induction false} Act3()
    ensures Reached(S3, 9)
  {
    Act2();
    Leg(S2, 6, 0, 3);
  }

  lemma {:induction false} Act4()
    ensures Reached(S4, 12)
  {
    Act3();
    Leg(S3, 9, 0, 3);
  }

  lemma {:induction false} Act5()
    ensures Reached(S5, 15)
  {
    Act4();
    Leg(S4, 12, 0, 3);
  }

  lemma {:induction false} Act6()
    ensures Reached(S6, 18)
  {
    Act5();
    Leg(S5, 15, 0, 3);
  }

  lemma {:induction false} Act7()
    ensures Reached(S7, 21)
  {
    Act6();
    Leg(S6, 18, 2, 3);
  }

  lemma {:induction false} Act8()
    ensures Reached(S8, 22)
  {
    Act7();
    Leg(S7, 21, 2, 1);
  }

  lemma {:induction false} Act9()
    ensures Reached(S9, 24)
  {
    Act8();
    Leg(S8, 22, 0, 2);
  }

  lemma {:induction false} Act10()
    ensures Reached(S10, 27)
  {
    Act9();
    Leg(S9, 24, 2, 3);
  }

  lemma {:induction false} Act11()
    ensures Reached(S11, 30)
  {
    Act10();
    Leg(S10, 27, 2, 3);
  }

  lemma {:induction false} Act12()
    ensures Reached(S12, 33)
  {
    Act11();
    Leg(S11, 30, 2, 3);
  }

  lemma {:induction false} Act13()
    ensures Reached(S13, 36)
  {
    Act12();
    Leg(S12, 33, 2, 3);
  }

  lemma {:induction false} Act14()
    ensures Reached(S14, 39)
  {
    Act13();
    Leg(S13, 36, 2, 3);
  }

  lemma {:induction false} Act15()
    ensures Reached(S15, 40)
  {
    Act14();
    Leg(S14, 39, 2, 1);
  }

  lemma {:induction false} Act16()
    ensures Reached(S16, 43)
  {
    Act15();
    Leg(S15, 40, 3, 3);
  }

  lemma {:induction false} Act17()
    ensures Reached(S17, 46)
  {
    Act16();
    Leg(S16, 43, 3, 3);
  }

  lemma {:induction false} Act18()
    ensures Reached(S18, 49)
  {
    Act17();
    Leg(S17, 46, 3, 3);
  }

  lemma {:induction false} Act19()
    ensures Reached(S19, 52)
  {
    Act18();
    Leg(S18, 49, 3, 3);
  }

  lemma {:induction false} Act20()
    ensures Reached(S20, 53)
  {
    Act19();
    Leg(S19, 52, 3, 1);
  }

  lemma {:induction false} Act21()
    ensures Reached(S21, 56)
  {
    Act20();
    Leg(S20, 53, 1, 3);
  }

  lemma {:induction false} Act22()
    ensures Reached(S22, 59)
  {
    Act21();
    Leg(S21, 56, 1, 3);
  }

  lemma {:induction false} Act23()
    ensures Reached(S23, 61)
  {
    Act22();
    Leg(S22, 59, 2, 2);
  }

  lemma {:induction false} Act24()
    ensures Reached(S24, 62)
  {
    Act23();
    Leg(S23, 61, 3, 1);
  }

  lemma {:induction false} Act25()
    ensures Reached(S25, 64)
  {
    Act24();
    Leg(S24, 62, 1, 2);
  }

  lemma {:induction false} Act26()
    ensures Reached(S26, 65)
  {
    Act25();
    Leg(S25, 64, 3, 1);
  }

  lemma {:induction false} Act27()
    ensures Reached(S27, 68)
  {
    Act26();
    Leg(S26, 65, 2, 3);
  }

  lemma {:induction false} Act28()
    ensures Reached(S28, 70)
  {
    Act27();
    Leg(S27, 68, 2, 2);
  }

  lemma {:induction false} Act29()
    ensures Reached(S29, 71)
  {
    Act28();
    Leg(S28, 70, 3, 1);
  }

  lemma {:induction false} Act30()
    ensures Reached(S30, 74)
  {
    Act29();
    Leg(S29, 71, 2, 3);
  }

  lemma {:induction false} Act31()
    ensures Reached(S31, 77)
  {
    Act30();
    Leg(S30, 74, 3, 3);
  }

  lemma {:induction false} Act32()
    ensures Reached(S32, 80)
  {
    Act31();
    Leg(S31, 77, 3, 3);
  }

  lemma {:induction false} Act33()
    ensures Reached(S33, 83)
  {
    Act32();
    Leg(S32, 80, 1, 3);
  }

  lemma {:induction false} Act34()
    ensures Reached(S34, 85)
  {
    Act33();
    Leg(S33, 83, 1, 2);
  }

  lemma {:induction false} Act35()
    ensures Reached(S35, 88)
  {
    Act34();
    Leg(S34, 85, 0, 3);
  }

  lemma {:induction false} Act36()
    ensures Reached(S36, 91)
  {
    Act35();
    Leg(S35, 88, 0, 3);
  }

  lemma {:induction false} Act37()
    ensures Reached(S37, 92)
  {
    Act36();
    Leg(S36, 91, 0, 1);
  }

  lemma {:induction false} Act38()
    ensures Reached(S38, 94)
  {
    Act37();
    Leg(S37, 92, 2, 2);
  }

  lemma {:induction false} Act39()
    ensures Reached(S39, 97)
  {
    Act38();
    Leg(S38, 94, 0, 3);
  }

  lemma {:induction false} Act40()
    ensures Reached(S40, 98)
  {
    Act39();
    Leg(S39, 97, 1, 1);
  }

  lemma {:induction false} Act41()
    ensures Reached(S41, 101)
  {
    Act40();
    Leg(S40, 98, 0, 3);
  }

  lemma {:induction false} Act42()
    ensures Reached(S42, 104)
  {
    Act41();
    Leg(S41, 101, 0, 3);
  }

  lemma {:induction false} Act43()
    ensures Reached(S43, 107)
  {
    Act42();
    Leg(S42, 104, 0, 3);
  }

  lemma {:induction false} Act44()
    ensures Reached(S44, 108)
  {
    Act43();
    Leg(S43, 107, 0, 1);
  }

  lemma {:induction false} Act45()
    ensures Reached(S45, 111)
  {
    Act44();
    Leg(S44, 108, 1, 3);
  }

  lemma {:induction false} Act46()
    ensures Reached(S46, 112)
  {
    Act45();
    Leg(S45, 111, 1, 1);
  }

  lemma {:induction false} Act47()
    ensures Reached(S47, 114)
  {
    Act46();
    Leg(S46, 112, 2, 2);
  }

  lemma {:induction false} Act48()
    ensures Reached(S48, 117)
  {
    Act47();
    Leg(S47, 114, 0, 3);
  }

  lemma {:induction false} Act49()
    ensures Reached(S49, 120)
  {
    Act48();
    Leg(S48, 117, 0, 3);
  }

  lemma {:induction false} Act50()
    ensures Reached(S50, 123)
  {
    Act49();
    Leg(S49, 120, 1, 3);
  }

  lemma {:induction false} Act51()
    ensures Reached(S51, 126)
  {
    Act50();
    Leg(S50, 123, 1, 3);
  }
}
