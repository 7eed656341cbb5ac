/** The control block of the ring buffer, updated in place (src/fcmanager/fc_fifo.c).  Each method
    performs one access, or what the source does before anybody else can see the buffer; the
    properties of any interleaving are proved in Fifo, FifoRuns and FifoLocked. */
module SharedFifo {
  import opened Fifo
  import FifoRuns

  const DEFAULT_ENTRIES := 32 * 1024

  class FCFifo {
    const data: array<Message>
    var numData: int
    var readIdx: int
    var writeIdx: int
    var refCount: int

    ghost function View(): (ctl: Control)
      reads this, data
    {
      Control(data[..], numData, readIdx, writeIdx, refCount)
    }

    /** fc_fifo_create: an empty buffer that its creator is attached to; very small sizes are
        replaced by the default. */
    constructor (elements: nat)
      ensures ControlOk(View()) && fresh(data)
      ensures data.Length == if elements <= 4 then DEFAULT_ENTRIES else elements
      ensures numData == readIdx == writeIdx == 0 && refCount == 1
    {
      data := new Message[if elements <= 4 then DEFAULT_ENTRIES else elements](_ => Message(0, 0));
      numData, readIdx, writeIdx, refCount := 0, 0, 0, 1;
    }

    method Connect()
      modifies this`refCount
      ensures refCount == old(refCount) + 1
    {
      refCount := refCount + 1;
    }

    /** Returns whether nobody is attached any more, so that the memory may go. */
    method Close() returns (last: bool)
      modifies this`refCount
      ensures View() == Fifo.Close(old(View())) && (last <==> refCount == 0)
      ensures refCount == if old(refCount) == 0 then 0 else old(refCount) - 1
    {
      var ref := refCount;
      if ref != 0 {
        refCount := refCount - 1;
        ref := refCount;
      }
      last := ref == 0;
    }

    /** One access of writer w; where the source has an index it must be inside the buffer. */
    method WriterAccess(pc: WriterPc, w: nat, scribble: bool, v: int) returns (next: WriterPc)
      requires ControlOk(View()) && WriterOk(pc, data.Length)
      modifies this, data
      ensures (View(), next) == Fifo.WriterAccess(old(View()), pc, w, scribble, v)
    {
      match pc {
        case WIdle => next := WAcquire(Message(w, v));
        case WAcquire(m) => next := WTest(m);
        case WTest(m) => next := if numData == data.Length then WAlone(m) else WSlot(m);
        case WAlone(m) => next := if refCount <= 1 then WGiveUp else WBackoff(m);
        case WBackoff(m) => next := WAcquire(m);
        case WGiveUp => next := WIdle;
        case WSlot(m) => next := WFill(m, writeIdx);
        case WFill(m, slot) =>
          if scribble {
            data[slot] := Message(w, v);
            next := pc;
          } else {
            data[slot] := m;
            next := WCount(m, slot);
          }
        case WCount(_, _) =>
          numData := numData + 1;
          next := WIndex;
        case WIndex =>
          if writeIdx >= data.Length - 1 {
            writeIdx := 0;
          } else {
            writeIdx := writeIdx + 1;
          }
          next := WRelease;
        case WRelease => next := WIdle;
      }
    }

    /** One access of the reader, and the message it read, if it read one. */
    method ReaderAccess(pc: ReaderPc) returns (next: ReaderPc, read: seq<Message>)
      requires ControlOk(View()) && ReaderOk(pc, data.Length)
      modifies this
      ensures (View(), next) == Fifo.ReaderAccess(old(View()), pc)
      ensures read == if pc.RRead? then [View().data[pc.slot]] else []
    {
      read := [];
      match pc {
        case RConnect =>
          Connect();
          next := RAcquire;
        case RAcquire => next := RTest;
        case RTest => next := if numData == 0 then RAlone else RSlot;
        case RAlone => next := if refCount <= 1 then RSecond else RBackoff;
        case RSecond => next := if numData > 0 then RSlot else REnding;
        case RBackoff => next := RAcquire;
        case RSlot => next := RRead(readIdx);
        case RRead(slot) =>
          read := [data[slot]];
          next := RCount(slot);
        case RCount(_) =>
          numData := numData - 1;
          next := RIndex;
        case RIndex =>
          if readIdx >= data.Length - 1 {
            readIdx := 0;
          } else {
            readIdx := readIdx + 1;
          }
          next := RRelease;
        case RRelease => next := RAcquire;
        case REnding => next := REnd;
        case REnd => next := REnd;
      }
    }
  }
  /** The buffer, its one writer and its reader are in state s. */
  ghost predicate In(s: State, fifo: FCFifo, w: WriterPc, r: ReaderPc, attached: bool)
    reads fifo, fifo.data
  {
    && Shaped(s) && s.ctl == fifo.View() && s.w == [w] && s.w[0] == w && s.r == r && s.owner == [0]
    && s.clients == [if attached then Attached else Gone]
  }

  /** One turn of the writer, of the reader or of the client. */
  method Turn(fifo: FCFifo, m: Move, w: WriterPc, r: ReaderPc, attached: bool, ghost s: State)
    returns (w': WriterPc, r': ReaderPc, attached': bool, got: seq<Message>)
    requires In(s, fifo, w, r, attached)
    modifies fifo, fifo.data
    ensures In(Step(s, m), fifo, w', r', attached') && Step(s, m).delivered == s.delivered + got
  {
    w', r', attached', got := w, r, attached, [];
    match m {
      case Writer(i, scribble, v) =>
        if i == 0 && (w != WIdle || attached) {
          w' := fifo.WriterAccess(w, 0, scribble, v);
        }
      case Reader =>
        r', got := fifo.ReaderAccess(r);
      case Attach(_) =>
      case Detach(c) =>
        if c == 0 && attached && w == WIdle {
          var _ := fifo.Close();
          attached' := false;
        }
    }
  }

  /** One writer and one reader sharing one buffer and taking turns as `ms` says: the buffer goes
      through the states of a run in single mode, and what is read is what the run delivers. */
  method Interleave(elements: nat, ms: seq<Move>) returns (read: seq<Message>, ghost b: seq<State>)
    ensures |b| > 0 && FifoRuns.Run(|b[0].ctl.data|, b, ms) && |b[0].w| == 1
    ensures read == b[|ms|].delivered && FifoRuns.Delivers(b[|ms|])
  {
    var fifo := new FCFifo(elements);
    var w, r, attached := WIdle, RConnect, true;
    read := [];
    b := [State(fifo.View(), [WIdle], RConnect, [Attached], [0], [], [], 0, [[]])];
    var k := 0;
    while k < |ms|
      invariant 0 <= k <= |ms| && fresh(fifo) && fresh(fifo.data)
      invariant FifoRuns.Run(fifo.data.Length, b, ms[..k]) && |b[0].ctl.data| == fifo.data.Length && |b[0].w| == 1
      invariant In(b[k], fifo, w, r, attached) && b[k].delivered == read
    {
      var got;
      w, r, attached, got := Turn(fifo, ms[k], w, r, attached, b[k]);
      read := read + got;
      b := b + [Step(b[k], ms[k])];
      assert ms[..k + 1] == ms[..k] + [ms[k]];
      k := k + 1;
    }
    assert ms[..k] == ms;
    FifoRuns.SingleModeDelivers(fifo.data.Length, b, ms, |ms|);
  }
}
