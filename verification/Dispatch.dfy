/** The manager with its list of contexts (src/fcmanager/main.c:109-268, src/fcmanager/fc_context.c:113-130,
    247-282): every message goes to the context of its sender, and at the end every context is
    flushed. */
module Dispatch {
  import opened Accounting
  import opened Manager
  import opened Maps
  import A = Arcs

  /** A message that has been read from the buffer: its sender, the time variable of the loop, and its
      content; or the notice that a process or thread has been created, which only makes a context. */
  datatype Letter = Letter(id: int, time: int, m: Message) | Notice(id: int, time: int)

  datatype Entry = Entry(id: int, s: Session)

  predicate Known(cs: seq<Entry>) {
    forall i :: 0 <= i < |cs| ==> StackKnown(cs[i].s.ctx)
  }

  /** The position of the context of a sender, or the length of the list. */
  function IndexOf(cs: seq<Entry>, id: int): (i: nat)
    ensures i <= |cs| && (i < |cs| ==> cs[i].id == id)
    ensures forall j :: 0 <= j < i ==> cs[j].id != id
  {
    if cs == [] then 0 else if cs[0].id == id then 0 else 1 + IndexOf(cs[1..], id)
  }

  lemma {:induction false} IndexIs(cs: seq<Entry>, id: int, i: nat)
    requires i <= |cs| && (i < |cs| ==> cs[i].id == id) && forall j :: 0 <= j < i ==> cs[j].id != id
    ensures IndexOf(cs, id) == i
  {
    assert forall j :: 0 <= j < IndexOf(cs, id) ==> cs[j].id != id;
  }

  /** fc_context_set: the context of the sender exists. */
  function WithContext(cs: seq<Entry>, id: int, time: int): (ds: seq<Entry>)
    ensures IndexOf(cs, id) < |ds| && ds[IndexOf(cs, id)].id == id
    ensures Known(cs) ==> Known(ds)
  {
    if IndexOf(cs, id) < |cs| then cs else cs + [Entry(id, NewSession(time))]
  }

  function Deliver(cs: seq<Entry>, l: Letter): (ds: seq<Entry>)
    requires Known(cs)
    ensures Known(ds)
  {
    var made, i := WithContext(cs, l.id, l.time), IndexOf(cs, l.id);
    if l.Notice? then made else made[i := Entry(l.id, Handle(made[i].s, l.m))]
  }

  function DeliverAll(ls: seq<Letter>): (cs: seq<Entry>)
    ensures Known(cs)
  {
    if ls == [] then [] else Deliver(DeliverAll(ls[..|ls| - 1]), ls[|ls| - 1])
  }

  function FlushAll(cs: seq<Entry>): (ds: seq<Entry>)
    requires Known(cs)
    ensures |ds| == |cs| && forall i :: 0 <= i < |cs| ==> ds[i] == Entry(cs[i].id, Flush(cs[i].s))
  {
    seq(|cs|, i requires 0 <= i < |cs| => Entry(cs[i].id, Flush(cs[i].s)))
  }

  // ---------------------------------------------------------------- contexts do not interfere

  /** The messages of one sender. */
  function Of(ls: seq<Letter>, id: int): seq<Message> {
    if ls == [] then [] else
    var l := ls[|ls| - 1];
    Of(ls[..|ls| - 1], id) + if l.Letter? && l.id == id then [l.m] else []
  }

  /** Some letter is from, or about, this sender. */
  predicate Heard(ls: seq<Letter>, id: int) {
    exists i :: 0 <= i < |ls| && ls[i].id == id
  }

  /** The time of the first of them. */
  function FirstTime(ls: seq<Letter>, id: int): int {
    if ls == [] then 0 else
    var most := ls[..|ls| - 1];
    if Heard(most, id) || ls[|ls| - 1].id != id then FirstTime(most, id) else ls[|ls| - 1].time
  }

  predicate Distinct(cs: seq<Entry>) {
    forall i, j :: 0 <= i < j < |cs| ==> cs[i].id != cs[j].id
  }

  ghost predicate OwnHistory(ls: seq<Letter>, e: Entry) {
    Heard(ls, e.id) && e.s == HandleAll(NewSession(FirstTime(ls, e.id)), Of(ls, e.id))
  }

  /** Each context is what the letters of its sender make of it, with the times that the loop found in
      them, however they are mixed with others; there is one for each sender heard of. */
  ghost predicate Isolated(ls: seq<Letter>, cs: seq<Entry>) {
    && Distinct(cs)
    && (forall i :: 0 <= i < |cs| ==> OwnHistory(ls, cs[i]))
    && forall k :: 0 <= k < |ls| ==> IndexOf(cs, ls[k].id) < |cs|
  }

  lemma {:induction false} HeardMore(ls: seq<Letter>, id: int)
    requires ls != []
    ensures Heard(ls, id) <==> Heard(ls[..|ls| - 1], id) || ls[|ls| - 1].id == id
  {
    var most := ls[..|ls| - 1];
    if i :| 0 <= i < |ls| && ls[i].id == id && i < |most| {
      assert most[i].id == id;
    }
    if i :| 0 <= i < |most| && most[i].id == id {
      assert ls[i].id == id;
    }
  }

  lemma {:induction false} Unheard(ls: seq<Letter>, id: int)
    requires !Heard(ls, id)
    ensures Of(ls, id) == [] && FirstTime(ls, id) == 0
  {
    if ls != [] {
      HeardMore(ls, id);
      Unheard(ls[..|ls| - 1], id);
    }
  }

  /** A letter to another sender, or a notice, changes nothing in a context. */
  lemma {:induction false} OtherLetter(ls: seq<Letter>, e: Entry)
    requires ls != [] && OwnHistory(ls[..|ls| - 1], e)
    requires ls[|ls| - 1].Notice? || ls[|ls| - 1].id != e.id
    ensures OwnHistory(ls, e)
  {
    HeardMore(ls, e.id);
    assert Of(ls, e.id) == Of(ls[..|ls| - 1], e.id);
    assert FirstTime(ls, e.id) == FirstTime(ls[..|ls| - 1], e.id);
  }

  lemma {:induction false} OwnLetter(ls: seq<Letter>, e: Entry)
    requires ls != [] && OwnHistory(ls[..|ls| - 1], e) && ls[|ls| - 1].Letter? && ls[|ls| - 1].id == e.id
    requires StackKnown(e.s.ctx)
    ensures OwnHistory(ls, Entry(e.id, Handle(e.s, ls[|ls| - 1].m)))
  {
    HeardMore(ls, e.id);
    var own := Of(ls[..|ls| - 1], e.id);
    assert (own + [ls[|ls| - 1].m])[..|own|] == own;
  }

  lemma {:induction false} FirstLetter(ls: seq<Letter>)
    requires ls != [] && !Heard(ls[..|ls| - 1], ls[|ls| - 1].id)
    ensures var l, s := ls[|ls| - 1], NewSession(ls[|ls| - 1].time);
      OwnHistory(ls, Entry(l.id, if l.Letter? then Handle(s, l.m) else s))
  {
    var l := ls[|ls| - 1];
    HeardMore(ls, l.id);
    Unheard(ls[..|ls| - 1], l.id);
    if l.Letter? {
      assert Of(ls, l.id) == [l.m] && [l.m][..0] == [];
      assert HandleAll(NewSession(l.time), []) == NewSession(l.time);
    }
  }

  lemma {:induction false} StillListed(cs: seq<Entry>, l: Letter, id: int)
    requires Known(cs) && (IndexOf(cs, id) < |cs| || l.id == id)
    ensures IndexOf(Deliver(cs, l), id) < |Deliver(cs, l)|
  {
    assert Deliver(cs, l)[IndexOf(cs, id)].id == id;
  }

  lemma {:induction false} NewContext(ls: seq<Letter>, cs: seq<Entry>)
    requires ls != [] && Isolated(ls[..|ls| - 1], cs) && Known(cs)
    requires IndexOf(cs, ls[|ls| - 1].id) == |cs|
    ensures OwnHistory(ls, Deliver(cs, ls[|ls| - 1])[|cs|])
  {
    var most, l := ls[..|ls| - 1], ls[|ls| - 1];
    forall k | 0 <= k < |most| ensures most[k].id != l.id {
      assert IndexOf(cs, most[k].id) < |cs|;
    }
    FirstLetter(ls);
  }

  lemma {:induction false} OldContext(ls: seq<Letter>, cs: seq<Entry>, i: nat)
    requires ls != [] && Isolated(ls[..|ls| - 1], cs) && Known(cs) && i < |cs|
    ensures OwnHistory(ls, Deliver(cs, ls[|ls| - 1])[i])
  {
    var l := ls[|ls| - 1];
    var at := IndexOf(cs, l.id);
    if i == at && l.Letter? {
      OwnLetter(ls, cs[i]);
    } else {
      assert i != at ==> cs[i].id != l.id;
      OtherLetter(ls, cs[i]);
    }
  }

  lemma {:induction false} DistinctKept(cs: seq<Entry>, l: Letter)
    requires Known(cs) && Distinct(cs)
    ensures Distinct(Deliver(cs, l))
  {
    var ds := Deliver(cs, l);
    assert forall i :: 0 <= i < |cs| ==> ds[i].id == cs[i].id;
    assert |ds| > |cs| ==> ds[|cs|].id == l.id;
  }

  lemma {:induction false} OwnKept(ls: seq<Letter>, cs: seq<Entry>)
    requires ls != [] && Isolated(ls[..|ls| - 1], cs) && Known(cs)
    ensures var ds := Deliver(cs, ls[|ls| - 1]); forall i :: 0 <= i < |ds| ==> OwnHistory(ls, ds[i])
  {
    var ds := Deliver(cs, ls[|ls| - 1]);
    forall i | 0 <= i < |ds| ensures OwnHistory(ls, ds[i]) {
      if i < |cs| {
        OldContext(ls, cs, i);
      } else {
        NewContext(ls, cs);
      }
    }
  }

  lemma {:induction false} ListedKept(ls: seq<Letter>, cs: seq<Entry>)
    requires ls != [] && Isolated(ls[..|ls| - 1], cs) && Known(cs)
    ensures var ds := Deliver(cs, ls[|ls| - 1]); forall k :: 0 <= k < |ls| ==> IndexOf(ds, ls[k].id) < |ds|
  {
    var ds := Deliver(cs, ls[|ls| - 1]);
    forall k | 0 <= k < |ls| ensures IndexOf(ds, ls[k].id) < |ds| {
      assert k < |ls| - 1 ==> IndexOf(cs, ls[..|ls| - 1][k].id) < |cs|;
      StillListed(cs, ls[|ls| - 1], ls[k].id);
    }
  }

  lemma {:induction false} ContextsAreIsolated(ls: seq<Letter>)
    ensures Isolated(ls, DeliverAll(ls))
  {
    if ls != [] {
      ContextsAreIsolated(ls[..|ls| - 1]);
      var before := DeliverAll(ls[..|ls| - 1]);
      DistinctKept(before, ls[|ls| - 1]);
      OwnKept(ls, before);
      ListedKept(ls, before);
    }
  }

  /** There was a letter of a before the first one of b. */
  predicate HeardBefore(ls: seq<Letter>, a: int, b: int) {
    exists k :: 0 <= k < |ls| && ls[k].id == a && NotAmong(ls[..k + 1], b)
  }

  predicate NotAmong(ls: seq<Letter>, id: int) {
    forall k :: 0 <= k < |ls| ==> ls[k].id != id
  }

  lemma {:induction false} HeardBeforeMore(ls: seq<Letter>, l: Letter, a: int, b: int)
    requires HeardBefore(ls, a, b)
    ensures HeardBefore(ls + [l], a, b)
  {
    var k :| 0 <= k < |ls| && ls[k].id == a && NotAmong(ls[..k + 1], b);
    assert ls[..k + 1] == (ls + [l])[..k + 1] && (ls + [l])[k] == ls[k];
  }

  /** A context for which there was none is that of a sender not heard of. */
  lemma {:induction false} NewIsUnheard(ls: seq<Letter>, cs: seq<Entry>, i: nat, id: int)
    requires Isolated(ls, cs) && i < |cs| && IndexOf(cs, id) == |cs|
    ensures HeardBefore(ls, cs[i].id, id)
  {
    forall k | 0 <= k < |ls| ensures ls[k].id != id {
      assert IndexOf(cs, ls[k].id) < |cs|;
    }
    assert OwnHistory(ls, cs[i]);
    var k :| 0 <= k < |ls| && ls[k].id == cs[i].id;
    assert NotAmong(ls[..k + 1], id);
  }

  lemma {:induction false} DeliverKeepsIds(cs: seq<Entry>, l: Letter)
    requires Known(cs)
    ensures var ds := Deliver(cs, l);
      && (forall i :: 0 <= i < |cs| ==> i < |ds| && ds[i].id == cs[i].id)
      && (|ds| == |cs| || (|ds| == |cs| + 1 && IndexOf(cs, l.id) == |cs| && ds[|cs|].id == l.id))
  {
  }

  /** The contexts are listed in the order in which their senders were heard of first. */
  lemma {:induction false} ContextsInOrder(ls: seq<Letter>, i: nat, j: nat)
    requires i < j < |DeliverAll(ls)|
    ensures HeardBefore(ls, DeliverAll(ls)[i].id, DeliverAll(ls)[j].id)
  {
    var most, l, cs := ls[..|ls| - 1], ls[|ls| - 1], DeliverAll(ls[..|ls| - 1]);
    assert ls == most + [l] && DeliverAll(ls) == Deliver(cs, l);
    DeliverKeepsIds(cs, l);
    if j < |cs| {
      ContextsInOrder(most, i, j);
      HeardBeforeMore(most, l, cs[i].id, cs[j].id);
    } else {
      ContextsAreIsolated(most);
      NewIsUnheard(most, cs, i, l.id);
      HeardBeforeMore(most, l, cs[i].id, l.id);
    }
  }

  /** What the flushed session of well-timed messages says: the local times sum up to the time that the
      sender was inside some function, and, when exits match, the arcs count the calls. */
  ghost predicate Accounts(s: Session, first: int, ms: seq<Message>) {
    && s.ctx.stack == []
    && Total(LocalTimes(s.ctx)) == BusyTime(Seen(first, ms))
    && (A.WellNested(ms) ==>
          && (forall keys :: A.Count(s.arcs, keys) == A.Calls(ms, keys))
          && forall f :: f != NULL ==>
               A.Count(s.arcs, A.Into(f)) == RecordOf(s.ctx, f).calls - A.WithoutArc(ms, f) + A.OfOthers(ms, f))
  }

  lemma {:induction false} SessionAccounts(first: int, ms: seq<Message>)
    requires WellTimed(ms)
    ensures Accounts(Flush(HandleAll(NewSession(first), ms)), first, ms)
  {
    var t := Flush(HandleAll(NewSession(first), ms));
    FlushedAccounts(first, ms);
    if A.WellNested(ms) {
      forall keys ensures A.Count(t.arcs, keys) == A.Calls(ms, keys) {
        A.ArcsAgreeWithCalls(first, ms, keys);
      }
      forall f | f != NULL
        ensures A.Count(t.arcs, A.Into(f)) == RecordOf(t.ctx, f).calls - A.WithoutArc(ms, f) + A.OfOthers(ms, f)
      {
        A.ArcsSumToCalls(first, ms, f);
      }
    }
  }

  /** At the end of the manager, whatever the mixture of letters, the times of each context and the
      counts of its arcs are those of the letters of its sender. */
  lemma {:induction false} ContextsAccount(ls: seq<Letter>, i: nat)
    requires i < |DeliverAll(ls)| && WellTimed(Of(ls, DeliverAll(ls)[i].id))
    ensures var e := FlushAll(DeliverAll(ls))[i];
      var ms, first := Of(ls, e.id), FirstTime(ls, e.id);
      e.s == Flush(HandleAll(NewSession(first), ms)) && Accounts(e.s, first, ms)
  {
    ContextsAreIsolated(ls);
    var d := DeliverAll(ls)[i];
    assert OwnHistory(ls, d);
    SessionAccounts(FirstTime(ls, d.id), Of(ls, d.id));
  }
}
