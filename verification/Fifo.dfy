/** The shared ring buffer of src/fcmanager/fc_fifo.c as a transition system.

    Writers belong to clients, which attach to the buffer and detach from it; one reader, the
    manager, empties it.  Each step is one access to the shared control block.  In single mode
    there is one writer and nobody locks; in the other modes every writer and the reader take the
    lock where this module only passes through `WAcquire` and `RAcquire`.  What the module assumes
    of either mode is that at most one writer at a time is inside the buffer (`OneInside`). */
module Fifo {

  datatype Message = Message(writer: nat, body: int)

  /** The control block; numEntry is the length of `data`. */
  datatype Control = Control(data: seq<Message>, numData: int, readIdx: int, writeIdx: int, refCount: int)

  datatype WriterPc =
    | WIdle                          // between messages
    | WAcquire(m: Message)           // takes the lock
    | WTest(m: Message)              // is the buffer full?
    | WAlone(m: Message)             // it is: is nobody else attached?
    | WBackoff(m: Message)           // gives the lock back, to try again
    | WGiveUp                        // gives the lock back and drops the message
    | WSlot(m: Message)              // reads the write index: the slot is reserved
    | WFill(m: Message, slot: int)   // writes the message into its slot
    | WCount(m: Message, slot: int)  // about to count the message
    | WIndex                         // about to move the write index
    | WRelease                       // gives the lock back

  datatype ReaderPc =
    | RConnect                       // about to attach
    | RAcquire                       // takes the lock
    | RTest                          // is the buffer empty?
    | RAlone                         // it is: is nobody else attached?
    | RSecond                        // nobody is: is the buffer still empty?
    | RBackoff                       // gives the lock back, to try again
    | RSlot                          // reads the read index
    | RRead(slot: int)               // reads the message in its slot
    | RCount(slot: int)              // about to count the message out
    | RIndex                         // about to move the read index
    | RRelease                       // gives the lock back
    | REnding                        // gives the lock back, to report the end of the stream
    | REnd                           // has reported the end of the stream

  datatype Client = Fresh | Attached | Gone

  /** The whole system.  The last four fields are history: the messages counted in and those read,
      in order, the number counted out, and for each writer the bodies of the messages for which it
      was given a slot. */
  datatype State = State(ctl: Control, w: seq<WriterPc>, r: ReaderPc, clients: seq<Client>, owner: seq<nat>,
                         published: seq<Message>, delivered: seq<Message>, consumed: nat, sent: seq<seq<int>>)

  /** A step: of a writer, whose next message has body v, or which may, while it fills its slot,
      leave anything there; of the reader; or of a client. */
  datatype Move = Writer(w: nat, scribble: bool, v: int) | Reader | Attach(c: nat) | Detach(c: nat)

  /** The index after i in a ring of n entries. */
  function NextIndex(i: int, n: nat): int {
    if i >= n - 1 then 0 else i + 1
  }

  predicate ControlOk(ctl: Control) {
    |ctl.data| > 0 && 0 <= ctl.writeIdx < |ctl.data| && 0 <= ctl.readIdx < |ctl.data|
  }

  predicate WriterOk(pc: WriterPc, n: nat) {
    pc.WFill? || pc.WCount? ==> 0 <= pc.slot < n
  }

  predicate ReaderOk(pc: ReaderPc, n: nat) {
    pc.RRead? || pc.RCount? ==> 0 <= pc.slot < n
  }

  /** An access by writer w (fc_fifo_write_single, its caller, and fc_fifo_write_single_done). */
  function WriterAccess(ctl: Control, pc: WriterPc, w: nat, scribble: bool, v: int): (r: (Control, WriterPc))
    requires ControlOk(ctl) && WriterOk(pc, |ctl.data|)
    ensures ControlOk(r.0) && |r.0.data| == |ctl.data| && WriterOk(r.1, |ctl.data|)
  {
    var n := |ctl.data|;
    match pc
    case WIdle => (ctl, WAcquire(Message(w, v)))
    case WAcquire(m) => (ctl, WTest(m))
    case WTest(m) => (ctl, if ctl.numData == n then WAlone(m) else WSlot(m))
    case WAlone(m) => (ctl, if ctl.refCount <= 1 then WGiveUp else WBackoff(m))
    case WBackoff(m) => (ctl, WAcquire(m))
    case WGiveUp => (ctl, WIdle)
    case WSlot(m) => (ctl, WFill(m, ctl.writeIdx))
    case WFill(m, slot) =>
      if scribble then (ctl.(data := ctl.data[slot := Message(w, v)]), pc)
      else (ctl.(data := ctl.data[slot := m]), WCount(m, slot))
    case WCount(_, _) => (ctl.(numData := ctl.numData + 1), WIndex)
    case WIndex => (ctl.(writeIdx := NextIndex(ctl.writeIdx, n)), WRelease)
    case WRelease => (ctl, WIdle)
  }

  /** An access by the reader (fc_fifo_connect, fc_fifo_read_single and fc_fifo_read_single_done). */
  function ReaderAccess(ctl: Control, pc: ReaderPc): (r: (Control, ReaderPc))
    requires ControlOk(ctl) && ReaderOk(pc, |ctl.data|)
    ensures ControlOk(r.0) && |r.0.data| == |ctl.data| && ReaderOk(r.1, |ctl.data|)
  {
    match pc
    case RConnect => (ctl.(refCount := ctl.refCount + 1), RAcquire)
    case RAcquire => (ctl, RTest)
    case RTest => (ctl, if ctl.numData == 0 then RAlone else RSlot)
    case RAlone => (ctl, if ctl.refCount <= 1 then RSecond else RBackoff)
    case RSecond => (ctl, if ctl.numData > 0 then RSlot else REnding)
    case RBackoff => (ctl, RAcquire)
    case RSlot => (ctl, RRead(ctl.readIdx))
    case RRead(slot) => (ctl, RCount(slot))
    case RCount(_) => (ctl.(numData := ctl.numData - 1), RIndex)
    case RIndex => (ctl.(readIdx := NextIndex(ctl.readIdx, |ctl.data|)), RRelease)
    case RRelease => (ctl, RAcquire)
    case REnding => (ctl, REnd)
    case REnd => (ctl, REnd)
  }

  /** fc_fifo_close. */
  function Close(ctl: Control): Control {
    ctl.(refCount := if ctl.refCount == 0 then 0 else ctl.refCount - 1)
  }

  predicate Shaped(s: State) {
    && ControlOk(s.ctl)
    && |s.owner| == |s.w| == |s.sent|
    && (forall i :: 0 <= i < |s.w| ==> s.owner[i] < |s.clients| && WriterOk(s.w[i], |s.ctl.data|))
    && ReaderOk(s.r, |s.ctl.data|)
  }

  /** A step of writer w; it starts a message only while its client is attached. */
  function WriterStep(s: State, w: nat, scribble: bool, v: int): (t: State)
    requires Shaped(s) && w < |s.w|
    ensures Shaped(t)
  {
    var pc := s.w[w];
    if pc.WIdle? && !s.clients[s.owner[w]].Attached? then s else
    var (ctl, next) := WriterAccess(s.ctl, pc, w, scribble, v);
    s.(ctl := ctl, w := s.w[w := next],
       published := if pc.WCount? then s.published + [pc.m] else s.published,
       sent := if pc.WSlot? then s.sent[w := s.sent[w] + [pc.m.body]] else s.sent)
  }

  function ReaderStep(s: State): (t: State)
    requires Shaped(s)
    ensures Shaped(t)
  {
    var (ctl, next) := ReaderAccess(s.ctl, s.r);
    s.(ctl := ctl, r := next,
       delivered := if s.r.RRead? then s.delivered + [s.ctl.data[s.r.slot]] else s.delivered,
       consumed := if s.r.RCount? then s.consumed + 1 else s.consumed)
  }

  predicate Resting(s: State, c: nat)
    requires Shaped(s)
  {
    forall i :: 0 <= i < |s.w| && s.owner[i] == c ==> s.w[i] == WIdle
  }

  /** One step of the system; a move that is not possible changes nothing.  A client attaches on
      behalf of one that is attached, and detaches when its writers have sent their last message. */
  function Step(s: State, m: Move): (t: State)
    requires Shaped(s)
    ensures Shaped(t)
  {
    match m
    case Writer(w, scribble, v) => if w < |s.w| then WriterStep(s, w, scribble, v) else s
    case Reader => ReaderStep(s)
    case Attach(c) =>
      if c < |s.clients| && s.clients[c].Fresh? && (exists d :: 0 <= d < |s.clients| && s.clients[d].Attached?)
      then s.(ctl := s.ctl.(refCount := s.ctl.refCount + 1), clients := s.clients[c := Attached])
      else s
    case Detach(c) =>
      if c < |s.clients| && s.clients[c].Attached? && Resting(s, c)
      then s.(ctl := Close(s.ctl), clients := s.clients[c := Gone])
      else s
  }

  /** A buffer of n entries that client 0 has just created; writer i belongs to client owner[i]. */
  predicate Initial(s: State, n: nat) {
    && Shaped(s)
    && |s.ctl.data| == n && s.ctl.numData == s.ctl.readIdx == s.ctl.writeIdx == 0 && s.ctl.refCount == 1
    && s.r == RConnect
    && |s.clients| > 0 && s.clients[0] == Attached && (forall c :: 0 < c < |s.clients| ==> s.clients[c] == Fresh)
    && s.published == s.delivered == [] && s.consumed == 0
    && (forall i :: 0 <= i < |s.w| ==> s.w[i] == WIdle && s.sent[i] == [])
  }

  predicate Inside(pc: WriterPc) {
    pc.WTest? || pc.WAlone? || pc.WSlot? || pc.WFill? || pc.WCount? || pc.WIndex?
  }

  /** At most one writer is between the test for a full buffer and the end of its done call. */
  predicate OneInside(s: State) {
    forall i, j :: 0 <= i < |s.w| && 0 <= j < |s.w| && Inside(s.w[i]) && Inside(s.w[j]) ==> i == j
  }

  // ---------------------------------------------------------------- the invariant

  ghost function AttachedCount(cs: seq<Client>): nat {
    if cs == [] then 0 else AttachedCount(cs[..|cs| - 1]) + if cs[|cs| - 1].Attached? then 1 else 0
  }

  predicate NoClient(s: State) {
    forall c :: 0 <= c < |s.clients| ==> !s.clients[c].Attached?
  }

  /** The bodies of the messages of writer w, in order. */
  function Of(ms: seq<Message>, w: nat): seq<int> {
    if ms == [] then []
    else Of(ms[..|ms| - 1], w) + if ms[|ms| - 1].writer == w then [ms[|ms| - 1].body] else []
  }

  function Reserved(pc: WriterPc): seq<int> {
    if pc.WFill? || pc.WCount? then [pc.m.body] else []
  }

  ghost predicate WriterInv(s: State, w: nat)
    requires Shaped(s) && w < |s.w|
  {
    var pc, n, p := s.w[w], |s.ctl.data|, |s.published|;
    && (pc != WIdle ==> s.clients[s.owner[w]].Attached?)
    && (pc.WAcquire? || pc.WTest? || pc.WAlone? || pc.WBackoff? || pc.WSlot? || pc.WFill? || pc.WCount?
        ==> pc.m.writer == w)
    && (pc.WSlot? || pc.WFill? || pc.WCount? ==> p - s.consumed < n)
    && (pc.WFill? || pc.WCount? ==> pc.slot == p % n)
    && (pc.WCount? ==> s.ctl.data[pc.slot] == pc.m)
    && (pc.WIndex? ==> p > 0 && s.ctl.writeIdx == (p - 1) % n)
    && s.sent[w] == Of(s.published, w) + Reserved(pc)
  }

  ghost predicate ReaderInv(s: State)
    requires Shaped(s)
  {
    var pc, n, p := s.r, |s.ctl.data|, |s.published|;
    && (pc.RSlot? || pc.RRead? || pc.RCount? ==> s.consumed < p)
    && (pc.RRead? || pc.RCount? ==> pc.slot == s.consumed % n)
    && (if pc.RIndex? then s.consumed > 0 && s.ctl.readIdx == (s.consumed - 1) % n
        else s.ctl.readIdx == s.consumed % n)
    && (pc.RSecond? || pc.REnding? || pc.REnd? ==> NoClient(s))
    && (pc.REnding? || pc.REnd? ==> s.ctl.numData == 0)
    && |s.delivered| == s.consumed + (if pc.RCount? then 1 else 0) <= p
    && s.delivered == s.published[..|s.delivered|]
  }

  ghost predicate BufferInv(s: State)
    requires Shaped(s)
  {
    var n, p := |s.ctl.data|, |s.published|;
    && s.consumed <= p && s.ctl.numData == p - s.consumed <= n
    && (forall j :: s.consumed <= j < p ==> s.ctl.data[j % n] == s.published[j])
    && ((forall i :: 0 <= i < |s.w| ==> !s.w[i].WIndex?) ==> s.ctl.writeIdx == p % n)
    && s.ctl.refCount == AttachedCount(s.clients) + if s.r.RConnect? then 0 else 1
  }

  ghost predicate Inv(s: State) {
    && Shaped(s) && BufferInv(s) && ReaderInv(s)
    && forall i: nat :: i < |s.w| ==> WriterInv(s, i)
  }

  // ---------------------------------------------------------------- arithmetic of the ring

  lemma {:induction false} LargerQuotient(q: nat, r: nat, q': nat, r': nat, n: nat)
    requires q > q' && r' < n
    ensures q * n + r > q' * n + r'
  {
    var k := q - q';
    assert k * n == (k - 1) * n + n;
    assert k * n == q * n - q' * n;
  }

  lemma {:induction false} ModIs(x: nat, q: nat, r: nat, n: nat)
    requires r < n && x == q * n + r
    ensures x % n == r
  {
    var q', r' := x / n, x % n;
    assert x == q' * n + r';
    if q > q' {
      LargerQuotient(q, r, q', r', n);
    } else if q' > q {
      LargerQuotient(q', r', q, r, n);
    }
  }

  lemma {:induction false} NextSlot(a: nat, n: nat)
    requires n > 0
    ensures NextIndex(a % n, n) == (a + 1) % n
  {
    var q, r := a / n, a % n;
    assert a == q * n + r;
    if r + 1 < n {
      ModIs(a + 1, q, r + 1, n);
    } else {
      assert (q + 1) * n == q * n + n;
      ModIs(a + 1, q + 1, 0, n);
    }
  }

  /** Messages that are in the ring together are in different slots. */
  lemma {:induction false} DifferentSlots(a: nat, b: nat, n: nat)
    requires a < b < a + n
    ensures a % n != b % n
  {
    var q, r := a / n, a % n;
    assert a == q * n + r;
    var d := b - a;
    if r + d < n {
      ModIs(b, q, r + d, n);
    } else {
      assert (q + 1) * n == q * n + n;
      ModIs(b, q + 1, r + d - n, n);
    }
  }

  lemma {:induction false} CountChanges(cs: seq<Client>, c: nat, x: Client)
    requires c < |cs|
    ensures AttachedCount(cs[c := x]) ==
      AttachedCount(cs) - (if cs[c].Attached? then 1 else 0) + (if x.Attached? then 1 else 0)
  {
    var k := |cs| - 1;
    if c == k {
      assert cs[c := x][..k] == cs[..k];
    } else {
      assert cs[c := x][..k] == cs[..k][c := x];
      CountChanges(cs[..k], c, x);
    }
  }

  lemma {:induction false} CountPositive(cs: seq<Client>, c: nat)
    requires c < |cs| && cs[c].Attached?
    ensures AttachedCount(cs) > 0
  {
    if c < |cs| - 1 {
      CountPositive(cs[..|cs| - 1], c);
    }
  }

  lemma {:induction false} CountZero(cs: seq<Client>)
    requires forall c :: 0 <= c < |cs| ==> !cs[c].Attached?
    ensures AttachedCount(cs) == 0
  {
    if cs != [] {
      CountZero(cs[..|cs| - 1]);
    }
  }

  // ---------------------------------------------------------------- every step keeps the invariant

  lemma {:induction false} InitialInv(s: State, n: nat)
    requires Initial(s, n) && n > 0
    ensures Inv(s)
  {
    var cs := s.clients;
    var rest := cs[0 := Fresh];
    CountZero(rest);
    CountChanges(rest, 0, Attached);
    assert rest[0 := Attached] == cs;
  }

  /** While a writer is inside the buffer, the others need little of it. */
  lemma {:induction false} OutsideKept(s: State, t: State, i: nat)
    requires Shaped(s) && Shaped(t) && i < |s.w| && WriterInv(s, i) && !Inside(s.w[i])
    requires t.clients == s.clients && t.owner == s.owner && |t.w| == |s.w| && t.w[i] == s.w[i]
    requires t.sent[i] == s.sent[i] && Of(t.published, i) == Of(s.published, i)
    ensures WriterInv(t, i)
  {
  }

  lemma {:induction false} WriterKeepsOthers(s: State, w: nat, scribble: bool, v: int, i: nat)
    requires Inv(s) && OneInside(s) && w < |s.w| && i < |s.w| && i != w
    ensures WriterInv(WriterStep(s, w, scribble, v), i)
  {
    assert WriterInv(s, w) && WriterInv(s, i);
    var t := WriterStep(s, w, scribble, v);
    if s.w[w].WCount? {
      assert t.published[..|s.published|] == s.published;
    }
    if Inside(s.w[w]) {
      OutsideKept(s, t, i);
    }
  }

  lemma {:induction false} WriterKeepsOwn(s: State, w: nat, scribble: bool, v: int)
    requires Inv(s) && OneInside(s) && w < |s.w|
    ensures WriterInv(WriterStep(s, w, scribble, v), w)
  {
    assert WriterInv(s, w);
    var t := WriterStep(s, w, scribble, v);
    if s.w[w].WCount? {
      assert t.published[..|s.published|] == s.published;
      assert forall i :: 0 <= i < |s.w| ==> !s.w[i].WIndex?;
    } else if s.w[w].WSlot? {
      assert forall i :: 0 <= i < |s.w| ==> !s.w[i].WIndex?;
    }
  }

  lemma {:induction false} WriterKeepsBuffer(s: State, w: nat, scribble: bool, v: int)
    requires Inv(s) && OneInside(s) && w < |s.w|
    ensures BufferInv(WriterStep(s, w, scribble, v))
  {
    assert WriterInv(s, w);
    var t := WriterStep(s, w, scribble, v);
    var n, p := |s.ctl.data|, |s.published|;
    forall j | s.consumed <= j < |t.published| ensures t.ctl.data[j % n] == t.published[j] {
      if s.w[w].WFill? {
        DifferentSlots(j, p, n);
      }
    }
    if s.w[w].WIndex? {
      NextSlot(p - 1, n);
    }
    if forall i :: 0 <= i < |t.w| ==> !t.w[i].WIndex? {
      if !s.w[w].WIndex? {
        forall i | 0 <= i < |s.w| ensures !s.w[i].WIndex? {
          assert i != w ==> t.w[i] == s.w[i];
        }
      }
    }
  }

  lemma {:induction false} WriterKeepsReader(s: State, w: nat, scribble: bool, v: int)
    requires Inv(s) && OneInside(s) && w < |s.w|
    ensures ReaderInv(WriterStep(s, w, scribble, v))
  {
    assert WriterInv(s, w);
  }

  lemma {:induction false} WriterKeeps(s: State, w: nat, scribble: bool, v: int)
    requires Inv(s) && OneInside(s) && w < |s.w|
    ensures Inv(WriterStep(s, w, scribble, v))
  {
    WriterKeepsBuffer(s, w, scribble, v);
    WriterKeepsReader(s, w, scribble, v);
    WriterKeepsOwn(s, w, scribble, v);
    forall i: nat | i < |s.w| && i != w ensures WriterInv(WriterStep(s, w, scribble, v), i) {
      WriterKeepsOthers(s, w, scribble, v, i);
    }
  }

  lemma {:induction false} ReaderKeepsWriters(s: State, i: nat)
    requires Inv(s) && i < |s.w|
    ensures WriterInv(ReaderStep(s), i)
  {
    assert WriterInv(s, i);
  }

  lemma {:induction false} ReaderKeepsOwn(s: State)
    requires Inv(s)
    ensures ReaderInv(ReaderStep(s))
  {
    if s.r.RAlone? && s.ctl.refCount <= 1 {
      forall c | 0 <= c < |s.clients| ensures !s.clients[c].Attached? {
        if s.clients[c].Attached? {
          CountPositive(s.clients, c);
        }
      }
    }
    if s.r.RIndex? {
      NextSlot(s.consumed - 1, |s.ctl.data|);
    }
  }

  lemma {:induction false} ReaderKeeps(s: State)
    requires Inv(s)
    ensures Inv(ReaderStep(s))
  {
    ReaderKeepsOwn(s);
    forall i: nat | i < |s.w| ensures WriterInv(ReaderStep(s), i) {
      ReaderKeepsWriters(s, i);
    }
    assert ReaderStep(s).w == s.w;
  }

  lemma {:induction false} ClientKeepsBuffer(s: State, m: Move)
    requires Inv(s) && (m.Attach? || m.Detach?)
    ensures BufferInv(Step(s, m))
  {
    if m.c < |s.clients| {
      CountChanges(s.clients, m.c, Attached);
      CountChanges(s.clients, m.c, Gone);
      if s.clients[m.c].Attached? {
        CountPositive(s.clients, m.c);
      }
    }
  }

  lemma {:induction false} ClientKeepsReader(s: State, m: Move)
    requires Inv(s) && (m.Attach? || m.Detach?)
    ensures ReaderInv(Step(s, m))
  {
  }

  lemma {:induction false} ClientKeepsWriter(s: State, m: Move, i: nat)
    requires Inv(s) && (m.Attach? || m.Detach?) && i < |s.w|
    ensures WriterInv(Step(s, m), i)
  {
    assert WriterInv(s, i);
  }

  lemma {:induction false} ClientKeeps(s: State, m: Move)
    requires Inv(s) && (m.Attach? || m.Detach?)
    ensures Inv(Step(s, m))
  {
    ClientKeepsBuffer(s, m);
    ClientKeepsReader(s, m);
    forall i: nat | i < |s.w| ensures WriterInv(Step(s, m), i) {
      ClientKeepsWriter(s, m, i);
    }
    assert Step(s, m).w == s.w;
  }

  lemma {:induction false} InvStep(s: State, m: Move)
    requires Inv(s) && OneInside(s)
    ensures Inv(Step(s, m))
  {
    match m
    case Writer(w, scribble, v) =>
      if w < |s.w| {
        WriterKeeps(s, w, scribble, v);
      }
    case Reader => ReaderKeeps(s);
    case _ => ClientKeeps(s, m);
  }
}
