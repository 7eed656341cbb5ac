/** The message loop and the flush, on objects that they update in place (src/fcmanager/main.c,
    src/fcmanager/fc_context.c). */
module MainLoop {
  import opened Accounting
  import opened Manager
  import opened Dispatch
  import opened FunctionTable
  import opened Packets
  import Streams
  import P = Profiles

  /** FC_Context. */
  class FCContext {
    const id: int
    const table: FCStack
    var arcs: map<int, int>
    var last: int
    ghost var Repr: set<object>

    ghost predicate Valid()
      reads this, Repr
    {
      && this in Repr && table in Repr && table.functions.Values <= Repr
      && table.Valid()
    }

    ghost function View(): (s: Session)
      requires Valid()
      reads this, Repr
    {
      Session(table.View(), arcs, last)
    }

    constructor (id: int, first: int)
      ensures Valid() && fresh(Repr) && this.id == id && View() == NewSession(first)
    {
      this.id := id;
      table := new FCStack();
      arcs, last := map[], first % U32_RANGE;
      new;
      Repr := {this, table};
    }

    /** fc_graph_add. */
    method CountArc(from: int, to: int)
      modifies this`arcs
      ensures arcs == AddArc(old(arcs), from, to)
    {
      var key := Key(from, to);
      if from != NULL && key != 0 {
        if key in arcs {
          arcs := arcs[key := arcs[key] + 1];
        } else {
          arcs := arcs[key := 1];
        }
      }
    }

    /** What the loop does with one message of this context. */
    method Handle(m: Message)
      requires Valid()
      modifies Repr
      ensures Valid() && fresh(Repr - old(Repr)) && View() == Manager.Handle(old(View()), m)
    {
      if !m.QuitMsg? {
        last := m.time;
        if m.EnterMsg? {
          table.Enter(m.f, m.from, m.time);
          Repr := Repr + table.functions.Values;
        } else if m.ExitMsg? && m.f != NULL {
          CountArc(m.from, m.f);
          var _ := table.Exit(m.f, m.time);
        }
      }
    }

    /** The function on top of the stack exits at the last time. */
    method FlushTop()
      requires Valid() && table.stack != []
      modifies Repr
      ensures Valid() && Repr == old(Repr) && View() == Manager.FlushOne(old(View()))
    {
      var top := table.stack[|table.stack| - 1];
      if top.symbol != NULL {
        CountArc(top.site, top.symbol);
        var _ := table.Exit(top.symbol, last);
      } else {
        table.stack := table.stack[..|table.stack| - 1];
      }
    }

    /** Every function still on the stack exits at the last time. */
    method Flush()
      requires Valid()
      modifies Repr
      ensures Valid() && Repr == old(Repr) && View() == Manager.Flush(old(View()))
    {
      while table.stack != []
        invariant Valid() && Repr == old(Repr) && Manager.Flush(View()) == Manager.Flush(old(View()))
        decreases |table.stack|
      {
        FlushTop();
      }
    }
  }

  /** The list of contexts and the current one. */
  class FCManager {
    var contexts: seq<FCContext>
    var current: FCContext?
    ghost var Repr: set<object>

    ghost predicate Valid()
      reads this, Repr
    {
      && this in Repr
      && (forall i :: 0 <= i < |contexts| ==>
           contexts[i] in Repr && contexts[i].Repr <= Repr && this !in contexts[i].Repr && contexts[i].Valid())
      && (forall i, j :: 0 <= i < j < |contexts| ==> contexts[i].Repr !! contexts[j].Repr)
      && (forall i, j :: 0 <= i < j < |contexts| ==> contexts[i].id != contexts[j].id)
      && (current != null ==> current in contexts)
    }

    ghost function View(): (cs: seq<Entry>)
      requires Valid()
      reads this, Repr
      ensures |cs| == |contexts| && Known(cs)
      ensures forall i :: 0 <= i < |cs| ==> cs[i] == Entry(contexts[i].id, contexts[i].View())
    {
      seq(|contexts|, i requires 0 <= i < |contexts| && Valid() reads this, Repr =>
        Entry(contexts[i].id, contexts[i].View()))
    }

    constructor ()
      ensures Valid() && fresh(Repr) && View() == []
    {
      contexts, current := [], null;
      Repr := {this};
    }

    /** The list is searched for the context of the sender. */
    method Search(id: int) returns (i: nat)
      requires Valid()
      modifies this`current
      ensures Valid() && View() == old(View()) && i <= |contexts|
      ensures forall j :: 0 <= j < i ==> contexts[j].id != id
      ensures i < |contexts| ==> contexts[i].id == id && current == contexts[i]
    {
      i := 0;
      while i < |contexts|
        invariant 0 <= i <= |contexts| && current == old(current)
        invariant forall j :: 0 <= j < i ==> contexts[j].id != id
      {
        if contexts[i].id == id {
          current := contexts[i];
          return;
        }
        i := i + 1;
      }
    }

    /** The context of the sender becomes current, if there is one. */
    method FindContext(id: int) returns (found: bool)
      requires Valid()
      modifies this`current
      ensures Valid() && View() == old(View())
      ensures found <==> IndexOf(View(), id) < |contexts|
      ensures found ==> current == contexts[IndexOf(View(), id)]
    {
      if current != null && current.id == id {
        ghost var j :| 0 <= j < |contexts| && contexts[j] == current;
        IndexIs(View(), id, j);
        found := true;
      } else {
        var i := Search(id);
        IndexIs(View(), id, i);
        found := i < |contexts|;
      }
    }

    /** fc_context_register: the new context goes to the end of the list, and becomes current. */
    method Register(ctx: FCContext)
      requires Valid() && ctx.Valid() && ctx.Repr !! Repr
      requires forall i :: 0 <= i < |contexts| ==> contexts[i].id != ctx.id
      modifies this
      ensures Valid() && Repr == old(Repr) + ctx.Repr
      ensures contexts == old(contexts) + [ctx] && current == ctx
      ensures View() == old(View()) + [Entry(ctx.id, ctx.View())]
    {
      contexts := contexts + [ctx];
      current := ctx;
      Repr := Repr + ctx.Repr;
    }

    /** fc_context_create. */
    method AddContext(id: int, time: int)
      requires Valid() && forall i :: 0 <= i < |contexts| ==> contexts[i].id != id
      modifies this
      ensures Valid() && fresh(Repr - old(Repr))
      ensures View() == old(View()) + [Entry(id, NewSession(time))]
      ensures |contexts| > 0 && current == contexts[|contexts| - 1]
    {
      var ctx := new FCContext(id, time);
      assert View() == old(View());
      Register(ctx);
    }

    /** fc_context_set: the context of the sender becomes current, and is made if there is none. */
    method SetContext(id: int, time: int)
      requires Valid()
      modifies this
      ensures Valid() && fresh(Repr - old(Repr))
      ensures View() == WithContext(old(View()), id, time)
      ensures IndexOf(old(View()), id) < |contexts| && current == contexts[IndexOf(old(View()), id)]
    {
      var found := FindContext(id);
      if !found {
        assert forall i :: 0 <= i < |contexts| ==> View()[i].id == contexts[i].id;
        AddContext(id, time);
      }
    }

    /** The current context handles a message; the others stay as they are. */
    method HandleCurrent(ghost at: nat, m: Message)
      requires Valid() && at < |contexts| && current == contexts[at]
      modifies this`Repr, contexts[at].Repr
      ensures Valid() && fresh(Repr - old(Repr)) && contexts == old(contexts)
      ensures View() == old(View())[at := Entry(old(View())[at].id, Manager.Handle(old(View())[at].s, m))]
    {
      current.Handle(m);
      Repr := Repr + current.Repr;
      forall i | 0 <= i < |contexts| && i != at
        ensures contexts[i].Repr == old(contexts[i].Repr) && contexts[i].Valid()
        ensures contexts[i].View() == old(contexts[i].View())
      {
        assert contexts[i].Repr !! old(contexts[at].Repr);
      }
    }

    /** One round of the loop. */
    method Deliver(l: Letter)
      requires Valid()
      modifies Repr
      ensures Valid() && fresh(Repr - old(Repr))
      ensures View() == Dispatch.Deliver(old(View()), l)
    {
      ghost var at := IndexOf(View(), l.id);
      SetContext(l.id, l.time);
      if l.Letter? {
        HandleCurrent(at, l.m);
      }
    }

    /** One context is flushed; the others stay as they are. */
    method FlushAt(at: nat)
      requires Valid() && at < |contexts|
      modifies this`current, contexts[at].Repr
      ensures Valid() && Repr == old(Repr) && contexts == old(contexts)
      ensures View()[at] == Entry(old(View())[at].id, Manager.Flush(old(View())[at].s))
      ensures forall i :: 0 <= i < |contexts| && i != at ==> View()[i] == old(View())[i]
    {
      current := contexts[at];
      current.Flush();
      assert forall i :: 0 <= i < |contexts| && i != at ==>
        contexts[i].Repr == old(contexts[i].Repr) && contexts[i].Valid() &&
        contexts[i].View() == old(contexts[i].View());
    }

    /** At the end of the stream every context is flushed. */
    method FlushContexts()
      requires Valid()
      modifies Repr
      ensures Valid() && View() == FlushAll(old(View()))
    {
      ghost var cs := View();
      var i := 0;
      while i < |contexts|
        invariant 0 <= i <= |contexts| == |cs| && Valid() && Repr == old(Repr)
        invariant forall j :: 0 <= j < |cs| ==> View()[j] == if j < i then FlushAll(cs)[j] else cs[j]
      {
        FlushAt(i);
        i := i + 1;
      }
    }
  }

  lemma {:induction false} DeliverFirst(id: int, start: int, v: Time)
    ensures DeliverAll(History(id, start, v, [])) == WithContext([], id, start)
  {
    assert History(id, start, v, []) == [Notice(id, start)] && [Notice(id, start)][..0] == [];
    assert DeliverAll([]) == [];
  }

  lemma {:induction false} DeliverNext(id: int, start: int, v: Time, xs: seq<Sent>, k: nat)
    requires k < |xs|
    ensures TimeAfter(v, xs[..k + 1]) == ReadTime(TimeAfter(v, xs[..k]), xs[k].p)
    ensures DeliverAll(History(id, start, v, xs[..k + 1]))
      == Dispatch.Deliver(DeliverAll(History(id, start, v, xs[..k])), Read(xs[k], TimeAfter(v, xs[..k + 1])))
  {
    assert xs[..k + 1][..k] == xs[..k];
    var h, more := History(id, start, v, xs[..k]), History(id, start, v, xs[..k + 1]);
    assert more[..|h|] == h;
  }

  /** The whole of the manager's work on a stream of messages, after the one that starts the profile, with
      a time variable that is not set before the loop: the contexts are those of the first process and
      of the stream, flushed; each tells of the messages of its sender, and when times do not decrease it
      accounts for them. */
  method Manage(id: int, start: int, v: Time, xs: seq<Sent>) returns (m: FCManager)
    ensures m.Valid() && m.View() == FlushAll(DeliverAll(History(id, start, v, xs)))
    ensures Isolated(History(id, start, v, xs), DeliverAll(History(id, start, v, xs)))
    ensures P.Lists(m.View(), id, xs) && forall e :: e in m.View() ==> P.Tells(e.s, xs, e.id)
    ensures Streams.OrderedTimes(xs) ==>
              forall e :: e in m.View() ==> Accounts(e.s, start, Messages(0, xs, e.id))
  {
    m := new FCManager();
    m.SetContext(id, start);
    var k, vtime := 0, v;
    DeliverFirst(id, start, v);
    while k < |xs|
      invariant 0 <= k <= |xs| && m.Valid() && fresh(m.Repr)
      invariant vtime == TimeAfter(v, xs[..k]) && m.View() == DeliverAll(History(id, start, v, xs[..k]))
    {
      DeliverNext(id, start, v, xs, k);
      vtime := ReadTime(vtime, xs[k].p);
      m.Deliver(Read(xs[k], vtime));
      k := k + 1;
    }
    assert xs[..k] == xs;
    m.FlushContexts();
    WhatItTells(id, start, v, xs);
  }

  lemma {:induction false} WhatItTells(id: int, start: int, v: Time, xs: seq<Sent>)
    ensures var h := History(id, start, v, xs);
      var es := FlushAll(DeliverAll(h));
      && Isolated(h, DeliverAll(h)) && P.Lists(es, id, xs)
      && (forall e :: e in es ==> P.Tells(e.s, xs, e.id))
      && (Streams.OrderedTimes(xs) ==> forall e :: e in es ==> Accounts(e.s, start, Messages(0, xs, e.id)))
  {
    ContextsAreIsolated(History(id, start, v, xs));
    StreamAccounts(id, start, v, xs);
    P.ManagerTells(id, start, v, xs);
  }

  lemma {:induction false} StreamAccounts(id: int, start: int, v: Time, xs: seq<Sent>)
    ensures Streams.OrderedTimes(xs) ==>
              forall e :: e in FlushAll(DeliverAll(History(id, start, v, xs))) ==>
                Accounts(e.s, start, Messages(0, xs, e.id))
  {
    var es := FlushAll(DeliverAll(History(id, start, v, xs)));
    if Streams.OrderedTimes(xs) {
      forall e | e in es ensures Accounts(e.s, start, Messages(0, xs, e.id)) {
        var i :| 0 <= i < |es| && es[i] == e;
        Streams.ContextsAccount(id, start, v, xs, i);
      }
    }
  }
}
