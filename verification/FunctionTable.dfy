/** The function records and the call stack of a context, updated in place
    (src/fcmanager/fc_functions.c).  What the updates mean is proved in Accounting and Conservation
    about the functions that specify them. */
module FunctionTable {
  import opened Accounting
  import opened Maps

  /** FC_Function. */
  class FCFunction {
    var calls: int
    var localTime: int
    var totalTime: int
    var lastTime: int
    var maxTime: int
    var minTime: int
    var maxLocal: int
    var minLocal: int
    var tempLocal: int
    var recursive: int

    ghost function View(): Record
      reads this
    {
      Record(calls, localTime, totalTime, lastTime, maxTime, minTime, maxLocal, minLocal, tempLocal, recursive)
    }

    constructor ()
      ensures View() == NEW_RECORD
    {
      calls, localTime, totalTime, lastTime := 0, 0, 0, 0;
      maxTime, minTime, maxLocal, minLocal := 0, U64_MAX, 0, U64_MAX;
      tempLocal, recursive := 0, 0;
    }

    /** The function has run on top of the stack until `time`. */
    method Charge(time: int)
      modifies this`tempLocal
      ensures View() == Run64(old(View()), time)
    {
      tempLocal := Add64(tempLocal, Sub64(time, lastTime));
    }

    /** The function, entered at `entry`, leaves the stack at `time`. */
    method Leave(entry: int, time: int)
      modifies this
      ensures View() == Accounting.Leave(old(View()), entry, time)
    {
      var delta := Sub64(time, entry);
      Charge(time);
      if recursive <= 1 {
        localTime := Add64(localTime, tempLocal);
      }
      if tempLocal > maxLocal {
        maxLocal := tempLocal;
      }
      if tempLocal < minLocal {
        minLocal := tempLocal;
      }
      if delta > maxTime {
        maxTime := delta;
      }
      if delta < minTime {
        minTime := delta;
      }
      if recursive <= 1 {
        totalTime := Add64(totalTime, delta);
      }
      recursive := recursive - 1;
    }
  }

  class FCStack {
    var functions: map<int, FCFunction>
    var stack: seq<Frame>

    /** Each symbol has a record of its own. */
    ghost predicate Valid()
      reads this
    {
      && (forall f, g :: f in functions && g in functions && f != g ==> functions[f] != functions[g])
      && forall i :: 0 <= i < |stack| ==> stack[i].symbol in functions
    }

    ghost function View(): (c: Context)
      reads this, functions.Values
    {
      Context(Table(), stack)
    }

    ghost function Table(): (t: map<int, Record>)
      reads this, functions.Values
    {
      map f | f in functions :: functions[f].View()
    }

    constructor ()
      ensures Valid() && View() == EMPTY && functions == map[]
    {
      functions, stack := map[], [];
    }

    /** fc_fhash_find, and fc_fhash_insert if the function is not known. */
    method Find(f: int) returns (func: FCFunction)
      requires Valid()
      modifies this`functions
      ensures Valid() && f in functions && functions[f] == func && stack == old(stack)
      ensures fresh(functions.Values - old(functions.Values))
      ensures Table() == old(Table())[f := RecordOf(old(View()), f)]
    {
      if f in functions {
        func := functions[f];
      } else {
        func := new FCFunction();
        functions := functions[f := func];
      }
    }

    /** A change of one record changes one entry of the table. */
    twostate lemma OneChanged(f: int)
      requires old(Valid()) && f in functions && functions == old(functions)
      requires forall g :: g in functions && g != f ==> unchanged(functions[g])
      ensures Table() == old(Table())[f := functions[f].View()]
    {
      forall g | g in functions && g != f ensures Table()[g] == old(Table())[g] {
      }
      SameMap(Table(), old(Table())[f := functions[f].View()]);
    }

    /** A function that is not on the stack starts a new presence. */
    method Begin(f: int)
      requires Valid() && f in functions
      modifies functions[f]
      ensures Valid() && stack == old(stack) && functions == old(functions)
      ensures Table() == old(Table())[f := Prepared(old(Table()), f)]
    {
      if functions[f].recursive == 0 {
        functions[f].tempLocal := 0;
      }
      OneChanged(f);
    }

    /** The function has run until `time`. */
    method ChargeTo(f: int, time: int)
      requires Valid() && f in functions
      modifies functions[f]
      ensures Valid() && stack == old(stack) && functions == old(functions)
      ensures Table() == old(Table())[f := Run64(old(Table())[f], time)]
    {
      functions[f].Charge(time);
      OneChanged(f);
    }

    /** The function runs from `time` on. */
    method Resume(f: int, time: int)
      requires Valid() && f in functions
      modifies functions[f]
      ensures Valid() && stack == old(stack) && functions == old(functions)
      ensures Table() == old(Table())[f := old(Table())[f].(lastTime := time)]
    {
      functions[f].lastTime := time;
      OneChanged(f);
    }

    /** The function has been called. */
    method Activate(f: int, time: int)
      requires Valid() && f in functions
      modifies functions[f]
      ensures Valid() && stack == old(stack) && functions == old(functions)
      ensures Table() == old(Table())[f := Entered(old(Table())[f], time)]
    {
      var func := functions[f];
      func.recursive := func.recursive + 1;
      func.calls := func.calls + 1;
      func.lastTime := time;
      OneChanged(f);
    }

    /** The function returns. */
    method Finish(f: int, entry: int, time: int)
      requires Valid() && f in functions
      modifies functions[f]
      ensures Valid() && stack == old(stack) && functions == old(functions)
      ensures Table() == old(Table())[f := Accounting.Leave(old(Table())[f], entry, time)]
    {
      functions[f].Leave(entry, time);
      OneChanged(f);
    }

    /** The record of a function that is about to be entered. */
    method Open(f: int)
      requires Valid()
      modifies this`functions, functions.Values
      ensures Valid() && f in functions && stack == old(stack) && fresh(functions.Values - old(functions.Values))
      ensures Table() == old(Table())[f := Prepared(old(Table()), f)]
    {
      var _ := Find(f);
      ghost var found := Table();
      Begin(f);
      SameMap(found[f := Prepared(found, f)], old(Table())[f := Prepared(old(Table()), f)]);
    }

    /** The function goes on the stack, and its caller, if any, has run until now. */
    method Push(f: int, site: int, time: int)
      requires Valid() && f in functions
      modifies this`stack, functions.Values
      ensures Valid() && functions == old(functions) && stack == old(stack) + [Frame(f, site, time)]
      ensures Table() == ChargeCaller(old(Table()), old(stack), time)
    {
      stack := stack + [Frame(f, site, time)];
      if |stack| > 1 {
        ChargeTo(stack[|stack| - 2].symbol, time);
      }
    }

    /** The call begins. */
    method Start(f: int, site: int, time: int)
      requires Valid() && f in functions
      modifies this`stack, functions.Values
      ensures Valid() && functions == old(functions) && stack == old(stack) + [Frame(f, site, time)]
      ensures var fs := ChargeCaller(old(Table()), old(stack), time); Table() == fs[f := Entered(fs[f], time)]
    {
      Push(f, site, time);
      Activate(f, time);
    }

    /** fc_functions_enter. */
    method Enter(f: int, site: int, time: int)
      requires Valid()
      modifies this, functions.Values
      ensures Valid() && fresh(functions.Values - old(functions.Values))
      ensures View() == EnterContext(old(View()), f, site, time)
    {
      Open(f);
      Start(f, site, time);
    }

    /** The top frame goes, and its caller, if any, runs from now on. */
    method Pop(time: int)
      requires Valid() && stack != []
      modifies this`stack, functions.Values
      ensures Valid() && functions == old(functions) && stack == old(stack)[..|old(stack)| - 1]
      ensures Table() ==
        if |old(stack)| == 1 then old(Table())
        else
          var p := Top(old(stack)[..|old(stack)| - 1]).symbol;
          old(Table())[p := old(Table())[p].(lastTime := time)]
    {
      if |stack| > 1 {
        Resume(stack[|stack| - 2].symbol, time);
      }
      stack := stack[..|stack| - 1];
    }

    /** fc_functions_exit; an exit that does not match the top of the stack is ignored. */
    method Exit(f: int, time: int) returns (accepted: bool)
      requires Valid()
      modifies this`stack, functions.Values
      ensures Valid() && View() == ExitContext(old(View()), f, time)
      ensures accepted <==> Matches(old(View()), f)
    {
      if stack == [] {
        return false;
      }
      var top := stack[|stack| - 1];
      if top.symbol != f {
        return false;
      }
      Finish(f, top.time, time);
      Pop(time);
      return true;
    }
  }
}
