/** What one call of the buffer does when nobody else steps meanwhile (src/fcmanager/fc_fifo.c:202-339): what
    fc_fifo_write_single and fc_fifo_read_single return, and that the reader comes to the end of the
    stream once nobody is attached.  Each case is decided by what the other processes have done before, and
    not by the reference count that the code looks at. */
module FifoCalls {
  import opened Fifo
  import FifoRuns

  /** k moves that are all the same. */
  function Repeated(s: State, m: Move, k: nat): (t: State)
    requires Shaped(s)
    ensures Shaped(t) && |t.w| == |s.w|
    decreases k
  {
    if k == 0 then s else Repeated(Step(s, m), m, k - 1)
  }

  lemma {:induction false} GoesOn(s: State, m: Move, j: nat, k: nat)
    requires Shaped(s)
    ensures Repeated(s, m, j + k) == Repeated(Repeated(s, m, j), m, k)
    decreases j
  {
    if j > 0 {
      GoesOn(Step(s, m), m, j - 1, k);
      assert Repeated(s, m, j + k) == Repeated(Step(s, m), m, j - 1 + k);
    }
  }

  function WriterAlone(s: State, w: nat, v: int, k: nat): (t: State)
    requires Shaped(s) && w < |s.w|
    ensures Shaped(t) && |t.w| == |s.w|
  {
    Repeated(s, Writer(w, false, v), k)
  }

  function ReaderAlone(s: State, k: nat): (t: State)
    requires Shaped(s)
    ensures Shaped(t)
  {
    Repeated(s, Reader, k)
  }

  // ---------------------------------------------------------------- who is attached

  /** Nobody but client c is attached, and the reader has not attached. */
  predicate OnlyClient(s: State, c: nat) {
    s.r.RConnect? && forall d :: 0 <= d < |s.clients| && s.clients[d].Attached? ==> d == c
  }

  lemma {:induction false} CountOne(cs: seq<Client>, c: nat)
    requires c < |cs| && cs[c].Attached?
    ensures AttachedCount(cs) == 1 <==> forall d :: 0 <= d < |cs| && cs[d].Attached? ==> d == c
  {
    var most := cs[..|cs| - 1];
    if c == |most| {
      if forall d :: 0 <= d < |most| ==> !most[d].Attached? {
        CountZero(most);
      } else {
        var d :| 0 <= d < |most| && most[d].Attached?;
        CountPositive(most, d);
        assert cs[d].Attached?;
      }
    } else {
      CountOne(most, c);
      CountPositive(most, c);
      assert cs[|most|].Attached? ==> |most| != c;
    }
  }

  lemma {:induction false} AloneMeansOne(s: State, c: nat)
    requires Inv(s) && c < |s.clients| && s.clients[c].Attached?
    ensures s.ctl.refCount <= 1 <==> OnlyClient(s, c)
  {
    CountOne(s.clients, c);
    CountPositive(s.clients, c);
  }

  predicate Full(s: State) {
    |s.published| - s.consumed == |s.ctl.data|
  }

  // ---------------------------------------------------------------- a call of the writer

  /** The test for a full buffer, and the one that follows. */
  lemma {:induction false} TwoTests(s: State, w: nat, v: int)
    requires Inv(s) && w < |s.w| && s.w[w].WTest?
    ensures var m := s.w[w].m;
      && WriterAlone(s, w, v, 0) == s
      && WriterAlone(s, w, v, 1) == s.(w := s.w[w := if Full(s) then WAlone(m) else WSlot(m)])
      && (Full(s) ==>
            WriterAlone(s, w, v, 2) == s.(w := s.w[w := if OnlyClient(s, s.owner[w]) then WGiveUp else WBackoff(m)]))
      && WriterAlone(s, w, v, 2) == Step(WriterAlone(s, w, v, 1), Writer(w, false, v))
  {
    assert WriterInv(s, w);
    AloneMeansOne(s, s.owner[w]);
    var s1 := Step(s, Writer(w, false, v));
    assert WriterAlone(s, w, v, 1) == WriterAlone(s1, w, v, 0) == s1;
    assert WriterAlone(s, w, v, 2) == WriterAlone(s1, w, v, 1) == Step(s1, Writer(w, false, v));
  }

  /** What the writer comes to, from the test for a full buffer on: there is room, and it gets the slot after
      the last message; the buffer is full and nobody else is there, and it returns without a slot, with
      nothing published or recorded as sent; or else it has given the lock back and tries again. */
  lemma {:induction false} WriteCall(s: State, w: nat, v: int)
    requires Inv(s) && OneInside(s) && w < |s.w| && s.w[w].WTest?
    ensures var m := s.w[w].m;
      if !Full(s) then
        WriterAlone(s, w, v, 2) ==
          s.(w := s.w[w := WFill(m, |s.published| % |s.ctl.data|)], sent := s.sent[w := s.sent[w] + [m.body]])
      else if OnlyClient(s, s.owner[w]) then WriterAlone(s, w, v, 3) == s.(w := s.w[w := WIdle])
      else
        WriterAlone(s, w, v, 3) == s.(w := s.w[w := WAcquire(m)]) && WriterAlone(s, w, v, 4) == s
  {
    TwoTests(s, w, v);
    if Full(s) {
      var s2 := WriterAlone(s, w, v, 2);
      var s3 := Step(s2, Writer(w, false, v));
      GoesOn(s, Writer(w, false, v), 2, 1);
      GoesOn(s, Writer(w, false, v), 2, 2);
      assert WriterAlone(s2, w, v, 1) == s3 && WriterAlone(s2, w, v, 2) == Step(s3, Writer(w, false, v));
    }
  }

  lemma {:induction false} SentStays(s: State, w: nat, v: int, k: nat)
    requires Shaped(s) && w < |s.w|
    ensures |WriterAlone(s, w, v, k).sent[w]| >= |s.sent[w]|
    decreases k
  {
    if k > 0 {
      SentStays(Step(s, Writer(w, false, v)), w, v, k - 1);
    }
  }

  /** The call has returned without a slot. */
  predicate GaveUp(s: State, t: State, w: nat)
    requires w < |s.w| == |s.sent| && w < |t.w| == |t.sent|
  {
    t.w[w].WIdle? && |t.sent[w]| == |s.sent[w]|
  }

  /** Until then it is inside its call. */
  lemma {:induction false} StillCalling(s: State, w: nat, v: int, k: nat)
    requires Inv(s) && OneInside(s) && w < |s.w| && s.w[w].WTest?
    requires k < 2 || (Full(s) && !OnlyClient(s, s.owner[w]) && k < 4)
    ensures !WriterAlone(s, w, v, k).w[w].WIdle?
  {
    if k == 3 {
      WriteCall(s, w, v);
    } else {
      TwoTests(s, w, v);
    }
  }

  lemma {:induction false} KeepsSlot(s: State, w: nat, v: int, k: nat)
    requires Inv(s) && OneInside(s) && w < |s.w| && s.w[w].WTest? && !Full(s) && k >= 2
    ensures |WriterAlone(s, w, v, k).sent[w]| > |s.sent[w]|
  {
    WriteCall(s, w, v);
    GoesOn(s, Writer(w, false, v), 2, k - 2);
    SentStays(WriterAlone(s, w, v, 2), w, v, k - 2);
  }

  lemma {:induction false} TriesAgain(s: State, w: nat, v: int, k: nat)
    requires Inv(s) && OneInside(s) && w < |s.w| && s.w[w].WTest? && Full(s) && !OnlyClient(s, s.owner[w]) && k >= 4
    ensures WriterAlone(s, w, v, k) == WriterAlone(s, w, v, k - 4)
  {
    WriteCall(s, w, v);
    GoesOn(s, Writer(w, false, v), 4, k - 4);
  }

  lemma {:induction false} GivesUpMeans(s: State, w: nat, v: int, k: nat)
    requires Inv(s) && OneInside(s) && w < |s.w| && s.w[w].WTest? && GaveUp(s, WriterAlone(s, w, v, k), w)
    ensures Full(s) && OnlyClient(s, s.owner[w])
    decreases k
  {
    if !Full(s) && k >= 2 {
      KeepsSlot(s, w, v, k);
    } else if Full(s) && !OnlyClient(s, s.owner[w]) && k >= 4 {
      TriesAgain(s, w, v, k);
      GivesUpMeans(s, w, v, k - 4);
    } else if !Full(s) || !OnlyClient(s, s.owner[w]) {
      StillCalling(s, w, v, k);
    }
  }

  /** A writer at the test for a full buffer, left alone, ends its call without a slot if and only if the
      buffer is full and nobody but its own client is attached. */
  lemma {:induction false} GivesUpExactly(s: State, w: nat, v: int)
    requires Inv(s) && OneInside(s) && w < |s.w| && s.w[w].WTest?
    ensures (exists k: nat :: GaveUp(s, WriterAlone(s, w, v, k), w)) <==> Full(s) && OnlyClient(s, s.owner[w])
  {
    WriteCall(s, w, v);
    if Full(s) && OnlyClient(s, s.owner[w]) {
      assert GaveUp(s, WriterAlone(s, w, v, 3), w);
    }
    forall k: nat | GaveUp(s, WriterAlone(s, w, v, k), w) ensures Full(s) && OnlyClient(s, s.owner[w]) {
      GivesUpMeans(s, w, v, k);
    }
  }

  /** With the slot, the writer publishes its message and is done. */
  lemma {:induction false} WriteDone(s: State, w: nat, v: int)
    requires Inv(s) && w < |s.w| && s.w[w].WFill?
    ensures var t := WriterAlone(s, w, v, 4);
      && t.w == s.w[w := WIdle] && t.published == s.published + [s.w[w].m] && t.sent == s.sent
      && t.ctl == s.ctl.(data := s.ctl.data[s.w[w].slot := s.w[w].m], numData := s.ctl.numData + 1,
                         writeIdx := NextIndex(s.ctl.writeIdx, |s.ctl.data|))
      && t.r == s.r && t.clients == s.clients && t.delivered == s.delivered && t.consumed == s.consumed
  {
    var s1 := Step(s, Writer(w, false, v));
    var s2 := Step(s1, Writer(w, false, v));
    var s3 := Step(s2, Writer(w, false, v));
    assert WriterAlone(s, w, v, 4) == WriterAlone(s1, w, v, 3) == WriterAlone(s2, w, v, 2) == WriterAlone(s3, w, v, 1);
    assert WriterAlone(s3, w, v, 1) == Step(s3, Writer(w, false, v));
  }

  lemma {:induction false} BeginsWrite(s: State, w: nat, v: int)
    requires Inv(s) && w < |s.w| && s.w[w].WIdle? && s.clients[s.owner[w]].Attached?
    requires forall i :: 0 <= i < |s.w| ==> !Inside(s.w[i])
    ensures var t := WriterAlone(s, w, v, 2); t == s.(w := s.w[w := WTest(Message(w, v))]) && Inv(t) && OneInside(t)
  {
    var s1 := Step(s, Writer(w, false, v));
    var s2 := Step(s1, Writer(w, false, v));
    InvStep(s, Writer(w, false, v));
    InvStep(s1, Writer(w, false, v));
    assert WriterAlone(s, w, v, 2) == WriterAlone(s1, w, v, 1) == WriterAlone(s2, w, v, 0) == s2;
  }

  lemma {:induction false} KeptByTwo(s: State, w: nat, v: int)
    requires Inv(s) && OneInside(s) && w < |s.w| && s.w[w].WTest? && !Full(s)
    ensures Inv(WriterAlone(s, w, v, 2))
  {
    TwoTests(s, w, v);
    InvStep(s, Writer(w, false, v));
    InvStep(WriterAlone(s, w, v, 1), Writer(w, false, v));
  }

  /** A writer that is left alone with a buffer that is not full and without another writer in it: its message
      is published, as it is. */
  lemma {:induction false} WholeWrite(s: State, w: nat, v: int)
    requires Inv(s) && w < |s.w| && s.w[w].WIdle? && s.clients[s.owner[w]].Attached? && !Full(s)
    requires forall i :: 0 <= i < |s.w| ==> !Inside(s.w[i])
    ensures var t := WriterAlone(s, w, v, 8);
      && t.published == s.published + [Message(w, v)] && t.sent == s.sent[w := s.sent[w] + [v]]
      && t.w == s.w && t.r == s.r && t.clients == s.clients && t.delivered == s.delivered && t.consumed == s.consumed
  {
    BeginsWrite(s, w, v);
    var s2 := WriterAlone(s, w, v, 2);
    GoesOn(s, Writer(w, false, v), 2, 6);
    GoesOn(s2, Writer(w, false, v), 2, 4);
    WriteCall(s2, w, v);
    var s4 := WriterAlone(s2, w, v, 2);
    KeptByTwo(s2, w, v);
    WriteDone(s4, w, v);
  }

  // ---------------------------------------------------------------- a call of the reader

  /** What the reader comes to, from taking the lock on: it has read the oldest message and is back; or,
      with none there, it has come back to try again if some client is attached, and else to the end. */
  lemma {:induction false} ReadCall(s: State)
    requires Inv(s) && s.r.RAcquire?
    ensures
      if s.consumed < |s.published| then
        var t := ReaderAlone(s, 7);
        && t.r == RAcquire && t.consumed == s.consumed + 1
        && t.delivered == s.delivered + [s.published[s.consumed]] && t.published == s.published
        && t.w == s.w && t.clients == s.clients && t.sent == s.sent
      else if NoClient(s) then ReaderAlone(s, 5) == s.(r := REnd)
      else ReaderAlone(s, 4) == s
  {
    NobodyMeansOne(s);
    var s1 := Step(s, Reader);
    var s2 := Step(s1, Reader);
    var s3 := Step(s2, Reader);
    var s4 := Step(s3, Reader);
    assert ReaderAlone(s, 4) == ReaderAlone(s1, 3) == ReaderAlone(s2, 2) == ReaderAlone(s3, 1) == s4;
    assert ReaderAlone(s, 5) == ReaderAlone(s1, 4) == ReaderAlone(s2, 3) == ReaderAlone(s3, 2) == Step(s4, Reader);
    if s.consumed < |s.published| {
      GoesOn(s, Reader, 4, 3);
      ReadOldest(s, s4);
    }
  }

  lemma {:induction false} NobodyMeansOne(s: State)
    requires Inv(s) && !s.r.RConnect?
    ensures s.ctl.refCount <= 1 <==> NoClient(s)
  {
    if NoClient(s) {
      CountZero(s.clients);
    } else {
      var c :| 0 <= c < |s.clients| && s.clients[c].Attached?;
      CountPositive(s.clients, c);
    }
  }

  lemma {:induction false} ReadOldest(s: State, s4: State)
    requires Inv(s) && s.r.RAcquire? && s.consumed < |s.published| && s4 == ReaderAlone(s, 4)
    ensures var t := ReaderAlone(s4, 3);
      && t.r == RAcquire && t.consumed == s.consumed + 1
      && t.delivered == s.delivered + [s.published[s.consumed]] && t.published == s.published
      && t.w == s.w && t.clients == s.clients && t.sent == s.sent
  {
    var s1 := Step(s, Reader);
    var s2 := Step(s1, Reader);
    var s3 := Step(s2, Reader);
    assert ReaderAlone(s, 4) == ReaderAlone(s1, 3) == ReaderAlone(s2, 2) == ReaderAlone(s3, 1) == Step(s3, Reader);
    var s5 := Step(s4, Reader);
    var s6 := Step(s5, Reader);
    assert ReaderAlone(s4, 3) == ReaderAlone(s5, 2) == ReaderAlone(s6, 1) == Step(s6, Reader);
  }

  // ---------------------------------------------------------------- the end is reached

  /** The steps of its own after which the reader is at the end, when no client is attached and n messages
      are unread. */
  function Left(pc: ReaderPc, n: int): int {
    match pc
    case RConnect => 7 * n + 6
    case RAcquire => 7 * n + 5
    case RTest => 7 * n + 4
    case RAlone => if n > 0 then 7 * n + 5 else 3
    case RSecond => if n > 0 then 7 * n + 4 else 2
    case RBackoff => 7 * n + 6
    case RSlot => 7 * n + 3
    case RRead(_) => 7 * n + 2
    case RCount(_) => 7 * n + 1
    case RIndex => 7 * n + 7
    case RRelease => 7 * n + 6
    case REnding => 1
    case REnd => 0
  }

  lemma {:induction false} NobodyInside(s: State)
    requires Inv(s) && NoClient(s)
    ensures (forall i :: 0 <= i < |s.w| ==> s.w[i] == WIdle) && OneInside(s)
  {
    forall i: nat | i < |s.w| ensures s.w[i] == WIdle {
      assert WriterInv(s, i);
    }
  }

  /** Each step of the reader brings it nearer. */
  lemma {:induction false} ReaderNears(s: State)
    requires Inv(s) && NoClient(s) && Left(s.r, s.ctl.numData) > 0
    ensures var t := Step(s, Reader);
      Inv(t) && NoClient(t) && t.published == s.published && Left(t.r, t.ctl.numData) == Left(s.r, s.ctl.numData) - 1
  {
    NobodyInside(s);
    InvStep(s, Reader);
    if !s.r.RConnect? {
      NobodyMeansOne(s);
    }
  }

  lemma {:induction false} LeftBound(s: State)
    requires Inv(s)
    ensures 0 <= Left(s.r, s.ctl.numData) <= 7 * (|s.published| - s.consumed) + 7
    ensures Left(s.r, s.ctl.numData) == 0 ==> s.r.REnd?
  {
  }

  lemma {:induction false} ReaderComes(s: State, k: nat)
    requires Inv(s) && NoClient(s) && k == Left(s.r, s.ctl.numData)
    ensures var t := ReaderAlone(s, k); Inv(t) && t.r.REnd? && t.published == s.published
    decreases k
  {
    LeftBound(s);
    if k > 0 {
      ReaderNears(s);
      ReaderComes(Step(s, Reader), k - 1);
    }
  }

  /** When no client is attached any more, the reader, wherever it is, comes to report the end of the stream,
      in exactly so many steps; by then every message has been delivered. */
  lemma {:induction false} EndIsReached(s: State)
    requires Inv(s) && NoClient(s)
    ensures var k := Left(s.r, s.ctl.numData);
      && 0 <= k <= 7 * (|s.published| - s.consumed) + 7
      && ReaderAlone(s, k).r.REnd? && ReaderAlone(s, k).published == s.published
      && FifoRuns.AllDelivered(ReaderAlone(s, k))
  {
    LeftBound(s);
    ReaderComes(s, Left(s.r, s.ctl.numData));
    FifoRuns.EndDelivers(ReaderAlone(s, Left(s.r, s.ctl.numData)));
  }
}
