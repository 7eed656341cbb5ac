/** What the ring buffer delivers, in single mode: one writer and one reader, and no lock. */
module FifoRuns {
  import opened Fifo

  // ---------------------------------------------------------------- what the invariant means

  /** The slot of message number j. */
  function SlotOf(j: nat, n: nat): int
    requires n > 0
  {
    j % n
  }

  /** What every state promises to the reader and the writers. */
  ghost predicate Delivers(s: State)
    requires Shaped(s)
  {
    var n, p := |s.ctl.data|, |s.published|;
    // what is read is what was written, in order, each message once
    && s.delivered <= s.published
    && 0 <= s.ctl.numData <= n
    // a slot handed to a writer holds no unread message and is not the one the reader holds
    && (forall i, j :: 0 <= i < |s.w| && s.w[i].WFill? && s.consumed <= j < p ==> s.w[i].slot != SlotOf(j, n))
    && (forall i :: 0 <= i < |s.w| && s.w[i].WFill? && (s.r.RRead? || s.r.RCount?) ==> s.w[i].slot != s.r.slot)
    // the slot the reader holds keeps the oldest unread message
    && (s.r.RRead? || s.r.RCount? ==> s.consumed < p && s.ctl.data[s.r.slot] == s.published[s.consumed])
    // each writer's messages come out in the order in which it was given slots for them
    && (forall i: nat :: i < |s.w| ==> Of(s.delivered, i) <= s.sent[i])
  }

  lemma {:induction false} OfPrefix(ms: seq<Message>, k: nat, w: nat)
    requires k <= |ms|
    ensures Of(ms[..k], w) <= Of(ms, w)
  {
    if k < |ms| {
      var most := ms[..|ms| - 1];
      OfPrefix(most, k, w);
      assert most[..k] == ms[..k];
    } else {
      assert ms[..k] == ms;
    }
  }

  lemma {:induction false} InvDelivers(s: State)
    requires Inv(s)
    ensures Delivers(s)
  {
    var n, p := |s.ctl.data|, |s.published|;
    forall i, j | 0 <= i < |s.w| && s.w[i].WFill? && s.consumed <= j < p ensures s.w[i].slot != SlotOf(j, n) {
      assert WriterInv(s, i);
      DifferentSlots(j, p, n);
    }
    forall i | 0 <= i < |s.w| && s.w[i].WFill? && (s.r.RRead? || s.r.RCount?) ensures s.w[i].slot != s.r.slot {
      assert WriterInv(s, i);
      DifferentSlots(s.consumed, p, n);
    }
    forall i: nat | i < |s.w| ensures Of(s.delivered, i) <= s.sent[i] {
      assert WriterInv(s, i);
      OfPrefix(s.published, |s.delivered|, i);
    }
  }

  /** When the reader reports the end of the stream, every message that got a slot has been read,
      each writer's in order, and nobody is left who could write. */
  ghost predicate AllDelivered(s: State)
    requires Shaped(s)
  {
    && s.delivered == s.published
    && NoClient(s)
    && forall i: nat :: i < |s.w| ==> s.w[i] == WIdle && Of(s.delivered, i) == s.sent[i]
  }

  lemma {:induction false} EndDelivers(s: State)
    requires Inv(s) && (s.r.REnding? || s.r.REnd?)
    ensures AllDelivered(s)
  {
    assert s.published[..|s.published|] == s.published;
    forall i: nat | i < |s.w| ensures s.w[i] == WIdle && Of(s.delivered, i) == s.sent[i] {
      assert WriterInv(s, i);
    }
  }

  /** After that nothing is ever written. */
  lemma {:induction false} EndIsFinal(s: State, m: Move)
    requires Inv(s) && s.r.REnd?
    ensures
      var t := Step(s, m);
      t.r.REnd? && t.published == s.published && t.delivered == s.delivered && t.sent == s.sent
  {
    EndDelivers(s);
  }

  /** A writer drops a message only before the manager has attached: while both are attached, a
      full buffer makes it try again. */
  lemma {:induction false} NoDropWhileRead(s: State, w: nat, scribble: bool, v: int)
    requires Inv(s) && w < |s.w| && !s.r.RConnect? && s.w[w].WAlone?
    ensures Step(s, Writer(w, scribble, v)).w[w] == WBackoff(s.w[w].m)
  {
    assert WriterInv(s, w);
    CountPositive(s.clients, s.owner[w]);
  }

  // ---------------------------------------------------------------- single mode

  ghost predicate Run(n: nat, b: seq<State>, ms: seq<Move>) {
    && |b| == |ms| + 1 && n > 0
    && Initial(b[0], n)
    && (forall k :: 0 <= k < |b| ==> Shaped(b[k]))
    && (forall k :: 0 <= k < |ms| ==> b[k + 1] == Step(b[k], ms[k]))
  }

  lemma {:induction false} SingleInv(n: nat, b: seq<State>, ms: seq<Move>, t: nat)
    requires Run(n, b, ms) && |b[0].w| == 1 && t <= |ms|
    ensures Inv(b[t]) && |b[t].w| == 1
  {
    if t == 0 {
      InitialInv(b[0], n);
    } else {
      SingleInv(n, b, ms, t - 1);
      InvStep(b[t - 1], ms[t - 1]);
    }
  }

  /** The lock-free buffer: with one writer and one reader, in any interleaving of their accesses,
      the messages read are a prefix of those written, and no slot is used for two things. */
  lemma {:induction false} SingleModeDelivers(n: nat, b: seq<State>, ms: seq<Move>, t: nat)
    requires Run(n, b, ms) && |b[0].w| == 1 && t <= |ms|
    ensures Delivers(b[t])
  {
    SingleInv(n, b, ms, t);
    InvDelivers(b[t]);
  }

  /** No message is lost at the end of the stream, nor written after it. */
  lemma {:induction false} SingleModeEnd(n: nat, b: seq<State>, ms: seq<Move>, t: nat, u: nat)
    requires Run(n, b, ms) && |b[0].w| == 1 && t <= u <= |ms| && b[t].r.REnd?
    ensures AllDelivered(b[t]) && b[u].published == b[t].published && b[u].r.REnd?
  {
    SingleInv(n, b, ms, t);
    EndDelivers(b[t]);
    if t < u {
      SingleModeEnd(n, b, ms, t, u - 1);
      SingleInv(n, b, ms, u - 1);
      EndIsFinal(b[u - 1], ms[u - 1]);
    }
  }

  // ---------------------------------------------------------------- why the reader tests twice

  ghost predicate Reached(n: nat, s: State) {
    exists b: seq<State>, ms: seq<Move> :: Run(n, b, ms) && |b[0].w| == 1 && b[|ms|] == s
  }

  lemma {:induction false} Then(n: nat, s: State, m: Move)
    requires Reached(n, s) && Shaped(s)
    ensures Reached(n, Step(s, m))
  {
    var b: seq<State>, ms: seq<Move> :| Run(n, b, ms) && |b[0].w| == 1 && b[|ms|] == s;
    var b', ms' := b + [Step(s, m)], ms + [m];
    assert Run(n, b', ms') && b'[|ms'|] == Step(s, m);
  }

  const X := Message(0, 7)
  const GO := Writer(0, false, 7)

  /** A buffer of more than one entry, whatever they are, and the states of a run on it. */
  type Data = d: seq<Message> | |d| > 1 witness [X, X]

  function Start(d: Data): State {
    State(Control(d, 0, 0, 0, 1), [WIdle], RConnect, [Attached], [0], [], [], 0, [[]])
  }

  function Empty(d: Data): State {
    Start(d).(ctl := Control(d, 0, 0, 0, 2), r := RAlone)
  }

  function Filled(d: Data): State {
    Empty(d).(ctl := Control(d[0 := X], 0, 0, 0, 2), w := [WCount(X, 0)], sent := [[7]])
  }

  function Sent(d: Data): State {
    Empty(d).(ctl := Control(d[0 := X], 1, 0, 1, 2), published := [X], sent := [[7]])
  }

  /** The reader attaches and finds the buffer empty. */
  lemma {:induction false} ReaderTests(d: Data)
    ensures Reached(|d|, Empty(d))
  {
    assert Run(|d|, [Start(d)], []) && [Start(d)][0] == Start(d);
    Then(|d|, Start(d), Reader);
    Then(|d|, Empty(d).(r := RAcquire), Reader);
    Then(|d|, Empty(d).(r := RTest), Reader);
  }

  /** The writer gets the slot. */
  lemma {:induction false} WriterReserves(d: Data)
    ensures Reached(|d|, Empty(d).(w := [WSlot(X)]))
  {
    ReaderTests(d);
    Then(|d|, Empty(d), GO);
    Then(|d|, Empty(d).(w := [WAcquire(X)]), GO);
    Then(|d|, Empty(d).(w := [WTest(X)]), GO);
  }

  /** The writer fills the slot. */
  lemma {:induction false} WriterFills(d: Data)
    ensures Reached(|d|, Filled(d))
  {
    WriterReserves(d);
    assert Empty(d).sent[0] + [7] == [7];
    Then(|d|, Empty(d).(w := [WSlot(X)]), GO);
    Then(|d|, Empty(d).(w := [WFill(X, 0)], sent := [[7]]), GO);
  }

  /** The writer counts the message and is done. */
  lemma {:induction false} WriterSends(d: Data)
    ensures Reached(|d|, Sent(d))
  {
    WriterFills(d);
    Then(|d|, Filled(d), GO);
    Then(|d|, Sent(d).(ctl := Control(d[0 := X], 1, 0, 0, 2), w := [WIndex]), GO);
    Then(|d|, Sent(d).(w := [WRelease]), GO);
  }

  /** The second test for data is needed, in any buffer of two entries or more, and so in every one
      that is ever made: a message can arrive, and its client detach, between the first test and the
      test of the reference count.  In the last state of this run the reader is about to make its second
      test; nobody else is attached, and a message waits. */
  lemma {:induction false} SecondTestNeeded(d: Data)
    ensures exists b: seq<State>, ms: seq<Move> ::
      && Run(|d|, b, ms) && |b[0].w| == 1
      && b[|ms|].r == RSecond && NoClient(b[|ms|]) && b[|ms|].ctl.numData == 1
      && b[|ms|].delivered == [] && b[|ms|].published == [X]
  {
    WriterSends(d);
    Then(|d|, Sent(d), Detach(0));
    var gone := Sent(d).(ctl := Control(d[0 := X], 1, 0, 1, 1), clients := [Gone]);
    Then(|d|, gone, Reader);
    assert Reached(|d|, gone.(r := RSecond));
  }
}
