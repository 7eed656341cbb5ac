/** The FC_Semaphore structure and its operations, updated in place (src/fcmanager/fc_semaphore.c).

    `Access` performs one access of get or put; the properties of any interleaving of such accesses
    are proved in Bakery and BakeryRuns about the function `Bakery.Access` that specifies it. */
module Semaphore {
  import opened Bakery
  import BakeryRuns

  datatype Slot = Slot(i: nat) | Full

  class FCSemaphore {
    const choosing: array<bool>
    const number: array<int>
    var recursive: int
    const pids: array<int>
    var numberPid: nat

    ghost predicate Valid()
      reads this, pids
    {
      && choosing.Length == number.Length == pids.Length && number != pids
      && numberPid <= pids.Length
      && forall i, j :: 0 <= i < j < numberPid ==> pids[i] != pids[j]
    }

    ghost function View(): (sem: Sem)
      reads this`recursive, choosing, number
    {
      Sem(choosing[..], number[..], recursive)
    }

    /** The processes that have a slot, in slot order. */
    ghost function Registered(): (s: seq<int>)
      requires Valid()
      reads this, pids
    {
      pids[..numberPid]
    }

    /** A new semaphore is all zeroes. */
    constructor (n: nat)
      ensures Valid() && fresh(choosing) && fresh(number) && fresh(pids)
      ensures choosing.Length == n && View() == Init(n).sem && Registered() == []
    {
      choosing := new bool[n](_ => false);
      number := new int[n](_ => 0);
      pids := new int[n](_ => 0);
      recursive, numberPid := 0, 0;
      new;
      assert choosing[..] == seq(n, _ => false);
      assert number[..] == seq(n, _ => 0);
    }

    /** A process keeps the slot it was given first; an unknown one gets the next free slot, until
        the table is full.  Different processes have different slots. */
    method FindProcess(pid: int) returns (r: Slot)
      requires Valid()
      modifies this`numberPid, pids
      ensures Valid() && View() == old(View())
      ensures pid in old(Registered()) ==> Registered() == old(Registered())
      ensures pid !in old(Registered()) && old(numberPid) < pids.Length ==> Registered() == old(Registered()) + [pid]
      ensures pid !in old(Registered()) && old(numberPid) == pids.Length ==>
        r == Full && Registered() == old(Registered())
      ensures r.Full? ==> pid !in Registered()
      ensures r.Slot? ==> r.i < numberPid && Registered()[r.i] == pid
    {
      var i := 0;
      while i < numberPid && i < pids.Length
        invariant 0 <= i <= numberPid
        invariant pid !in pids[..i]
      {
        if pids[i] == pid {
          assert pids[i] in Registered();
          return Slot(i);
        }
        i := i + 1;
      }
      if i == pids.Length {
        return Full;
      }
      pids[i] := pid;
      numberPid := numberPid + 1;
      return Slot(i);
    }

    /** One access by the process in slot p. */
    method Access(p: nat, pc: Pc, call: Call) returns (next: Pc)
      requires Valid() && p < number.Length && PcOk(pc, number.Length)
      modifies this`recursive, choosing, number
      ensures Valid() && Registered() == old(Registered())
      ensures (View(), next) == Bakery.Access(old(View()), number.Length, p, pc, call)
    {
      var n := number.Length;
      var own := number[p];
      match pc {
        case Idle => next := if own != 0 then NestRead else Choose;
        case Choose =>
          choosing[p] := true;
          next := Compare(0);
        case Compare(i) =>
          next := if number[i] > own then Copy(i) else if i + 1 < n then Compare(i + 1) else Increment;
        case Copy(i) => next := Store(i, number[i]);
        case Store(i, v) =>
          number[p] := v;
          next := if i + 1 < n then Compare(i + 1) else Increment;
        case Increment =>
          number[p] := Succ16(own);
          next := Unchoose;
        case Unchoose =>
          choosing[p] := false;
          next := TestChoosing(0);
        case TestChoosing(i) => next := if choosing[i] then pc else TestZero(i);
        case TestZero(i) => next := if number[i] == 0 then WaitOn(n, i) else TestLess(i);
        case TestLess(i) => next := if number[i] < own then TestZero(i) else TestEqual(i);
        case TestEqual(i) => next := if number[i] == own && i < p then TestZero(i) else WaitOn(n, i);
        case Critical =>
          if call == Get {
            next := if own != 0 then NestRead else Choose;
          } else {
            next := if recursive != 0 then UnnestRead else Release;
          }
        case NestRead => next := NestWrite(recursive);
        case NestWrite(c) =>
          recursive := c + 1;
          next := Critical;
        case UnnestRead => next := UnnestWrite(recursive);
        case UnnestWrite(c) =>
          recursive := c - 1;
          next := Critical;
        case Release =>
          number[p] := 0;
          next := Idle;
      }
    }

    /** Does anybody have, or choose, a ticket? */
    method Locked() returns (r: bool)
      requires Valid()
      ensures r <==> exists i :: 0 <= i < number.Length && View().number[i] != 0
    {
      var i := 0;
      while i < number.Length
        invariant 0 <= i <= number.Length
        invariant forall j :: 0 <= j < i ==> number[j] == 0
      {
        if number[i] != 0 {
          assert View().number[i] != 0;
          return true;
        }
        i := i + 1;
      }
      return false;
    }
  }

  /** Processes sharing one semaphore and taking turns as `ms` says, one access at a time, go
      through the states of a run; so everything proved about runs holds of the structure. */
  method Interleave(n: nat, ms: seq<Move>) returns (sem: FCSemaphore, pc: seq<Pc>, ghost b: seq<State>)
    requires forall k :: 0 <= k < |ms| ==> ms[k].p < n
    ensures BakeryRuns.Run(n, b, ms)
    ensures sem.View() == b[|ms|].sem && pc == b[|ms|].pc
  {
    sem := new FCSemaphore(n);
    pc := seq(n, _ => Idle);
    b := [Init(n)];
    var k := 0;
    while k < |ms|
      invariant 0 <= k <= |ms| && sem.Valid() && sem.number.Length == n && fresh(sem) && fresh(sem.choosing) &&
        fresh(sem.number)
      invariant BakeryRuns.Run(n, b, ms[..k])
      invariant sem.View() == b[k].sem && pc == b[k].pc
    {
      var m := ms[k];
      var next := sem.Access(m.p, pc[m.p], m.call);
      pc := pc[m.p := next];
      b := b + [Step(b[k], n, m)];
      assert ms[..k + 1] == ms[..k] + [m];
      k := k + 1;
    }
    assert ms[..k] == ms;
  }
}
