/** The messages as the clients send them, and how the manager reads them
    (src/include/fc_com.h:40-117, src/fcmanager/fc_com_manager.c:52-210, src/fcmanager/main.c:102-182).

    Only some messages carry a time.  For the others the time variable of the loop keeps the time of
    the last message, of any sender, that had one, and the loop takes it for the time of the sender. */
module Packets {
  import opened Accounting
  import opened Manager
  import opened Dispatch
  import A = Arcs

  /** unsigned long long. */
  type Time = t: int | 0 <= t <= U64_MAX

  /** `UntimedPacket` stands for the messages about memory, dynamic libraries and the parent process,
      `CreatedPacket` for those about a new process or thread. */
  datatype Packet =
    | EnterPacket(f: int, from: int, time: Time)
    | ExitPacket(f: int, from: int, time: Time)
    | QuitPacket(time: Time)
    | TimePacket(time: Time)
    | CreatedPacket(child: int, time: Time)
    | UntimedPacket

  datatype Sent = Sent(id: int, p: Packet)

  /** fc_mcom_read, for the time variable. */
  function ReadTime(vtime: Time, p: Packet): Time {
    if p.UntimedPacket? then vtime else p.time
  }

  /** What the loop has when the message has been read and the time variable is vtime. */
  function Read(x: Sent, vtime: Time): Letter {
    match x.p
    case EnterPacket(f, from, _) => Letter(x.id, vtime, EnterMsg(f, from, vtime))
    case ExitPacket(f, from, _) => Letter(x.id, vtime, ExitMsg(f, from, vtime))
    case QuitPacket(_) => Letter(x.id, vtime, QuitMsg)
    case TimePacket(_) => Letter(x.id, vtime, OtherMsg(vtime))
    case UntimedPacket => Letter(x.id, vtime, OtherMsg(vtime))
    case CreatedPacket(child, _) => Notice(child, vtime)
  }

  /** The time variable, which was v before the loop, after the messages. */
  function TimeAfter(v: Time, xs: seq<Sent>): Time {
    if xs == [] then v else ReadTime(TimeAfter(v, xs[..|xs| - 1]), xs[|xs| - 1].p)
  }

  /** It is the time of the last message that has one, the k-th, or v if there is none. */
  lemma {:induction false} TimeIsLast(v: Time, xs: seq<Sent>, k: int)
    requires -1 <= k < |xs| && (k >= 0 ==> !xs[k].p.UntimedPacket?)
    requires forall j :: k < j < |xs| ==> xs[j].p.UntimedPacket?
    ensures TimeAfter(v, xs) == if k >= 0 then xs[k].p.time else v
  {
    if xs != [] && k < |xs| - 1 {
      TimeIsLast(v, xs[..|xs| - 1], k);
    }
  }

  /** What the manager has heard of: the first process, and the messages that it reads. */
  function History(id: int, start: int, v: Time, xs: seq<Sent>): seq<Letter> {
    if xs == [] then [Notice(id, start)]
    else History(id, start, v, xs[..|xs| - 1]) + [Read(xs[|xs| - 1], TimeAfter(v, xs))]
  }

  predicate From(x: Sent, id: int) {
    x.id == id && !x.p.CreatedPacket?
  }

  /** The messages of one sender, as the loop has them. */
  function Messages(v: Time, xs: seq<Sent>, id: int): seq<Message> {
    if xs == [] then [] else
    var x := xs[|xs| - 1];
    Messages(v, xs[..|xs| - 1], id) + if From(x, id) then [Read(x, TimeAfter(v, xs)).m] else []
  }

  /** The same messages without those of others. */
  function Only(xs: seq<Sent>, id: int): seq<Sent> {
    if xs == [] then [] else
    Only(xs[..|xs| - 1], id) + if From(xs[|xs| - 1], id) then [xs[|xs| - 1]] else []
  }

  /** What the messages of a sender make of its context, in the stream and on their own. */
  function Mixed(first: int, v: Time, xs: seq<Sent>, id: int): (s: Session)
    ensures StackKnown(s.ctx)
  {
    HandleAll(NewSession(first), Messages(v, xs, id))
  }

  function Alone(first: int, v: Time, xs: seq<Sent>, id: int): (s: Session)
    ensures StackKnown(s.ctx)
  {
    Mixed(first, v, Only(xs, id), id)
  }

  lemma {:induction false} OfHistory(id: int, start: int, v: Time, xs: seq<Sent>, x: int)
    ensures Of(History(id, start, v, xs), x) == Messages(v, xs, x)
  {
    if xs != [] {
      OfHistory(id, start, v, xs[..|xs| - 1], x);
      var h := History(id, start, v, xs);
      assert h[..|h| - 1] == History(id, start, v, xs[..|xs| - 1]);
    } else {
      var h := History(id, start, v, xs);
      assert h[..|h| - 1] == [];
    }
  }

  /** The contexts of the manager are these. */
  lemma {:induction false} ContextsAreMixed(id: int, start: int, v: Time, xs: seq<Sent>, i: nat)
    requires i < |DeliverAll(History(id, start, v, xs))|
    ensures var h := History(id, start, v, xs); var e := DeliverAll(h)[i];
      e.s == Mixed(FirstTime(h, e.id), v, xs, e.id)
  {
    var h := History(id, start, v, xs);
    ContextsAreIsolated(h);
    assert OwnHistory(h, DeliverAll(h)[i]);
    OfHistory(id, start, v, xs, DeliverAll(h)[i].id);
  }

  // ---------------------------------------------------------------- one more message

  lemma {:induction false} MixedMore(first: int, v: Time, xs: seq<Sent>, id: int)
    requires xs != []
    ensures var x, s := xs[|xs| - 1], Mixed(first, v, xs[..|xs| - 1], id);
      Mixed(first, v, xs, id) == if From(x, id) then Handle(s, Read(x, TimeAfter(v, xs)).m) else s
  {
    var ms := Messages(v, xs[..|xs| - 1], id);
    if From(xs[|xs| - 1], id) {
      assert (ms + [Read(xs[|xs| - 1], TimeAfter(v, xs)).m])[..|ms|] == ms;
    } else {
      assert Messages(v, xs, id) == ms;
    }
  }

  lemma {:induction false} AloneMore(first: int, v: Time, xs: seq<Sent>, id: int)
    requires xs != []
    ensures var x, s := xs[|xs| - 1], Alone(first, v, xs[..|xs| - 1], id);
      Alone(first, v, xs, id) == if From(x, id) then Handle(s, Read(x, TimeAfter(v, Only(xs, id))).m) else s
  {
    var x, most := xs[|xs| - 1], Only(xs[..|xs| - 1], id);
    if From(x, id) {
      assert Only(xs, id)[..|most|] == most;
      MixedMore(first, v, Only(xs, id), id);
    } else {
      assert Only(xs, id) == most;
    }
  }

  lemma {:induction false} OnlyTime(v: Time, xs: seq<Sent>, id: int)
    requires xs != [] && From(xs[|xs| - 1], id)
    ensures TimeAfter(v, Only(xs, id)) == ReadTime(TimeAfter(v, Only(xs[..|xs| - 1], id)), xs[|xs| - 1].p)
  {
    var most := Only(xs[..|xs| - 1], id);
    assert Only(xs, id)[..|most|] == most;
  }

  // ---------------------------------------------------------------- what depends on the others

  /** Before the flush the functions, the stack and the arcs of a context are what the messages of its
      sender make of them on their own, whatever the time variable was at first. */
  lemma {:induction false} OwnBeforeFlush(first: int, first': int, v: Time, v': Time, xs: seq<Sent>, id: int)
    ensures var s, t := Mixed(first, v, xs, id), Alone(first', v', xs, id);
      s.ctx == t.ctx && s.arcs == t.arcs
  {
    if xs != [] {
      OwnBeforeFlush(first, first', v, v', xs[..|xs| - 1], id);
      MixedMore(first, v, xs, id);
      AloneMore(first', v', xs, id);
      if From(xs[|xs| - 1], id) {
        OnlyTime(v', xs, id);
      }
    }
  }

  /** The sender has entered a function. */
  predicate HasEntered(xs: seq<Sent>, id: int) {
    xs != [] && ((xs[|xs| - 1].id == id && xs[|xs| - 1].p.EnterPacket?) || HasEntered(xs[..|xs| - 1], id))
  }

  lemma {:induction false} StackMeansEntered(first: int, v: Time, xs: seq<Sent>, id: int)
    requires Mixed(first, v, xs, id).ctx.stack != []
    ensures HasEntered(xs, id)
  {
    if xs != [] && !HasEntered(xs, id) {
      MixedMore(first, v, xs, id);
      StackMeansEntered(first, v, xs[..|xs| - 1], id);
    }
  }

  /** From then on the time variable does not depend on what it was at first. */
  lemma {:induction false} TimeIsRead(v: Time, v': Time, xs: seq<Sent>, id: int)
    requires HasEntered(xs, id)
    ensures TimeAfter(v, xs) == TimeAfter(v', xs)
    ensures TimeAfter(v, Only(xs, id)) == TimeAfter(v', Only(xs, id))
  {
    var x, most := xs[|xs| - 1], xs[..|xs| - 1];
    if From(x, id) {
      OnlyTime(v, xs, id);
      OnlyTime(v', xs, id);
    } else {
      assert Only(xs, id) == Only(most, id);
    }
    if !(x.id == id && x.p.EnterPacket?) {
      TimeIsRead(v, v', most, id);
    }
  }

  /** The last message of the sender that sets the time of its context has a time, or finds in the time
      variable the one that the sender's own messages would have left there. */
  predicate OwnTime(xs: seq<Sent>, id: int) {
    xs == [] ||
    var x, most := xs[|xs| - 1], xs[..|xs| - 1];
    if !From(x, id) || x.p.QuitPacket? then OwnTime(most, id)
    else x.p.UntimedPacket? ==> TimeAfter(0, most) == TimeAfter(0, Only(most, id))
  }

  lemma {:induction false} LastMore(first: int, v: Time, xs: seq<Sent>, id: int)
    requires xs != []
    ensures var x := xs[|xs| - 1];
      Mixed(first, v, xs, id).last ==
        if From(x, id) && !x.p.QuitPacket? then TimeAfter(v, xs) else Mixed(first, v, xs[..|xs| - 1], id).last
  {
    MixedMore(first, v, xs, id);
  }

  lemma {:induction false} AloneLastMore(first: int, v: Time, xs: seq<Sent>, id: int)
    requires xs != []
    ensures var x, most := xs[|xs| - 1], xs[..|xs| - 1];
      Alone(first, v, xs, id).last ==
        if From(x, id) && !x.p.QuitPacket? then ReadTime(TimeAfter(v, Only(most, id)), x.p)
        else Alone(first, v, most, id).last
  {
    AloneMore(first, v, xs, id);
    if From(xs[|xs| - 1], id) {
      OnlyTime(v, xs, id);
    }
  }

  lemma {:induction false} LastExactly(first: int, first': int, v: Time, v': Time, xs: seq<Sent>, id: int)
    requires HasEntered(xs, id)
    ensures Mixed(first, v, xs, id).last == Alone(first', v', xs, id).last <==> OwnTime(xs, id)
  {
    var x, most := xs[|xs| - 1], xs[..|xs| - 1];
    LastMore(first, v, xs, id);
    AloneLastMore(first', v', xs, id);
    if !(x.id == id && x.p.EnterPacket?) {
      LastExactly(first, first', v, v', most, id);
      TimeIsRead(v, 0, most, id);
      TimeIsRead(v', 0, most, id);
    }
  }

  lemma {:induction false} LastIsRead(first: int, first': int, v: Time, v': Time, xs: seq<Sent>, id: int)
    requires HasEntered(xs, id)
    ensures Mixed(first, v, xs, id).last == Mixed(first', v', xs, id).last
    ensures 0 <= Mixed(first, v, xs, id).last <= U64_MAX
  {
    var x, most := xs[|xs| - 1], xs[..|xs| - 1];
    LastMore(first, v, xs, id);
    LastMore(first', v', xs, id);
    if !(x.id == id && x.p.EnterPacket?) {
      LastIsRead(first, first', v, v', most, id);
      TimeIsRead(v, v', most, id);
    }
  }

  lemma {:induction false} OnlyEntered(xs: seq<Sent>, id: int)
    requires HasEntered(xs, id)
    ensures HasEntered(Only(xs, id), id)
  {
    var x, most := xs[|xs| - 1], xs[..|xs| - 1];
    if From(x, id) {
      assert Only(xs, id)[..|Only(most, id)|] == Only(most, id);
    } else {
      assert Only(xs, id) == Only(most, id);
    }
    if !(x.id == id && x.p.EnterPacket?) {
      OnlyEntered(most, id);
    }
  }

  // ---------------------------------------------------------------- the flush

  /** The recursion state of f is the number of its frames. */
  predicate Recursive(c: Context, f: int) {
    RecordOf(c, f).recursive == Occurrences(c.stack, f)
  }

  lemma {:induction false} EnterRecursive(c: Context, f: int, site: int, time: int, g: int)
    requires StackKnown(c) && Recursive(c, g)
    ensures Recursive(EnterContext(c, f, site, time), g)
  {
    EnterRecord(c, f, site, time, g);
    PushedFrame(c.stack, Frame(f, site, time), g);
  }

  lemma {:induction false} ExitRecursive(c: Context, f: int, time: int, g: int)
    requires StackKnown(c) && Recursive(c, g)
    ensures Recursive(ExitContext(c, f, time), g)
  {
    if Matches(c, f) {
      ExitRecord(c, f, time, g);
    }
  }

  lemma {:induction false} MixedRecursive(first: int, v: Time, xs: seq<Sent>, id: int, g: int)
    ensures Recursive(Mixed(first, v, xs, id).ctx, g)
  {
    if xs != [] {
      var s, x := Mixed(first, v, xs[..|xs| - 1], id), xs[|xs| - 1];
      MixedMore(first, v, xs, id);
      MixedRecursive(first, v, xs[..|xs| - 1], id, g);
      if From(x, id) && x.p.EnterPacket? {
        EnterRecursive(s.ctx, x.p.f, x.p.from, TimeAfter(v, xs), g);
      } else if From(x, id) && x.p.ExitPacket? {
        ExitRecursive(s.ctx, x.p.f, TimeAfter(v, xs), g);
      }
    }
  }

  /** The flush of one frame adds to the total time of g when it is the outermost frame of g. */
  lemma {:induction false} FlushOneTotal(s: Session, g: int)
    requires StackKnown(s.ctx) && s.ctx.stack != [] && Recursive(s.ctx, g) && g != NULL
    ensures var r, t := RecordOf(s.ctx, g), RecordOf(FlushOne(s).ctx, g);
      && Recursive(FlushOne(s).ctx, g)
      && t.totalTime ==
           if Top(s.ctx.stack).symbol == g && r.recursive == 1
           then Add64(r.totalTime, Sub64(s.last, Top(s.ctx.stack).time)) else r.totalTime
  {
    var top := Top(s.ctx.stack).symbol;
    if top != NULL {
      ExitRecord(s.ctx, top, s.last, g);
    }
  }

  /** The flush adds to the total time of a function on the stack the time from its outermost entry on. */
  lemma {:induction false} FlushTotal(s: Session, g: int)
    requires StackKnown(s.ctx) && Recursive(s.ctx, g) && g != NULL
    ensures RecordOf(Flush(s).ctx, g).totalTime ==
      if Occurrences(s.ctx.stack, g) == 0 then RecordOf(s.ctx, g).totalTime
      else Add64(RecordOf(s.ctx, g).totalTime, Sub64(s.last, Outermost(s.ctx.stack, g)))
    decreases |s.ctx.stack|
  {
    if s.ctx.stack != [] {
      FlushOneTotal(s, g);
      FlushTotal(FlushOne(s), g);
    }
  }

  lemma {:induction false} FlushUnnamed(s: Session)
    requires StackKnown(s.ctx) && forall i :: 0 <= i < |s.ctx.stack| ==> s.ctx.stack[i].symbol == NULL
    ensures Flush(s) == s.(ctx := s.ctx.(stack := []))
    decreases |s.ctx.stack|
  {
    if s.ctx.stack != [] {
      FlushUnnamed(FlushOne(s));
    }
  }

  lemma {:induction false} FlushOneArcs(s: Session, t: Session)
    requires StackKnown(s.ctx) && StackKnown(t.ctx) && s.ctx.stack == t.ctx.stack != [] && s.arcs == t.arcs
    ensures FlushOne(s).ctx.stack == FlushOne(t).ctx.stack && FlushOne(s).arcs == FlushOne(t).arcs
  {
  }

  lemma {:induction false} FlushArcs(s: Session, t: Session)
    requires StackKnown(s.ctx) && StackKnown(t.ctx) && s.ctx.stack == t.ctx.stack && s.arcs == t.arcs
    ensures Flush(s).arcs == Flush(t).arcs
    decreases |s.ctx.stack|
  {
    if s.ctx.stack != [] {
      FlushOneArcs(s, t);
      FlushArcs(FlushOne(s), FlushOne(t));
    }
  }

  lemma {:induction false} OnStack(stack: seq<Frame>, i: nat)
    requires i < |stack|
    ensures Occurrences(stack, stack[i].symbol) > 0
  {
    if i < |stack| - 1 {
      OnStack(stack[..|stack| - 1], i);
    }
  }

  lemma {:induction false} SumIs(a: int, b: int, t: int) returns (k: int)
    ensures Add64(a, Sub64(t, b)) == a + t - b - k * U64_RANGE
  {
    k := (t - b) / U64_RANGE + (a + Sub64(t, b)) / U64_RANGE;
  }

  lemma {:induction false} DifferentSums(a: int, b: int, t: Time, u: Time)
    requires Add64(a, Sub64(t, b)) == Add64(a, Sub64(u, b))
    ensures t == u
  {
    var k := SumIs(a, b, t);
    var m := SumIs(a, b, u);
    assert t - u == (k - m) * U64_RANGE;
  }

  /** Some function is still to be left. */
  predicate SomeNamed(stack: seq<Frame>) {
    exists i :: 0 <= i < |stack| && stack[i].symbol != NULL
  }

  /** The last time matters for the flush exactly when some function is still to be left. */
  lemma {:induction false} FlushExactly(s: Session, t: Session)
    requires StackKnown(s.ctx) && s.ctx == t.ctx && s.arcs == t.arcs
    requires forall g :: g in s.ctx.functions ==> Recursive(s.ctx, g)
    requires SomeNamed(s.ctx.stack) ==> 0 <= s.last <= U64_MAX && 0 <= t.last <= U64_MAX
    ensures Flush(s).arcs == Flush(t).arcs
    ensures Flush(s).ctx == Flush(t).ctx <==> SomeNamed(s.ctx.stack) ==> s.last == t.last
  {
    FlushArcs(s, t);
    if SomeNamed(s.ctx.stack) {
      var i :| 0 <= i < |s.ctx.stack| && s.ctx.stack[i].symbol != NULL;
      var g := s.ctx.stack[i].symbol;
      OnStack(s.ctx.stack, i);
      FlushTotal(s, g);
      FlushTotal(t, g);
      if Flush(s).ctx == Flush(t).ctx {
        DifferentSums(RecordOf(s.ctx, g).totalTime, Outermost(s.ctx.stack, g), s.last, t.last);
      }
    } else {
      FlushUnnamed(s);
      FlushUnnamed(t);
    }
  }

  /** After the flush, too, the arcs of a context are the sender's own.  Its functions are, if and only
      if none of them is still on the stack, or the last time that the context gets is the sender's own. */
  lemma {:induction false} OwnAfterFlushExactly(first: int, first': int, v: Time, v': Time, xs: seq<Sent>, id: int)
    ensures var s, t := Mixed(first, v, xs, id), Alone(first', v', xs, id);
      && Flush(s).arcs == Flush(t).arcs
      && (Flush(s).ctx == Flush(t).ctx <==> !SomeNamed(t.ctx.stack) || OwnTime(xs, id))
  {
    var s, t := Mixed(first, v, xs, id), Alone(first', v', xs, id);
    OwnBeforeFlush(first, first', v, v', xs, id);
    forall g | g in s.ctx.functions ensures Recursive(s.ctx, g) {
      MixedRecursive(first, v, xs, id, g);
    }
    if SomeNamed(s.ctx.stack) {
      StackMeansEntered(first, v, xs, id);
      LastExactly(first, first', v, v', xs, id);
      LastIsRead(first, first, v, v, xs, id);
      OnlyEntered(xs, id);
      LastIsRead(first', first', v', v', Only(xs, id), id);
    }
    FlushExactly(s, t);
  }

  /** What the time variable is before the loop does not matter: no initial value is set, and none
      reaches the flushed context. */
  lemma {:induction false} FirstTimeUnused(first: int, first': int, v: Time, v': Time, xs: seq<Sent>, id: int)
    ensures var s, t := Mixed(first, v, xs, id), Mixed(first', v', xs, id);
      Flush(s).ctx == Flush(t).ctx && Flush(s).arcs == Flush(t).arcs
  {
    var s, t := Mixed(first, v, xs, id), Mixed(first', v', xs, id);
    OwnBeforeFlush(first, first, v, v, xs, id);
    OwnBeforeFlush(first', first, v', v, xs, id);
    forall g | g in s.ctx.functions ensures Recursive(s.ctx, g) {
      MixedRecursive(first, v, xs, id, g);
    }
    if SomeNamed(s.ctx.stack) {
      StackMeansEntered(first, v, xs, id);
      LastIsRead(first, first', v, v', xs, id);
    }
    FlushExactly(s, t);
  }
}
