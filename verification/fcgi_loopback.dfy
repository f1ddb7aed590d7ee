/** The streams themselves, driven through whole runs: the writers of one request under any interleaving of
    calls, and a writer connected to a reader. */
module FcgiLoopback {
  import opened FcgiWire
  import opened FcgiConnection
  import opened FcgiReader
  import opened FcgiWriter
  import opened FcgiSession
  import opened FcgiRoundTrip
  import opened FcgiCapacity
  import W = FcgiWriterSpec

  /** A writer that is in raw mode only once closed, as all are between calls. */
  ghost predicate Callable(w: WriterStream)
    reads w
  {
    w.Valid() && (w.rawWrite ==> w.wasFCloseCalled)
  }

  /** One call of the library. */
  method Perform(w: WriterStream, call: Call)
    requires Callable(w)
    modifies w, w.buff, w.req`nWriters, w.req.conn
    ensures Callable(w) && w.req.requestId == old(w.req.requestId) && w.req.conn == old(w.req.conn)
    ensures var r := Apply(old(w.Abs()), old(w.Env()), call); w.Abs() == r.w && w.Env() == r.s
  {
    hide W.PutStr, W.PutChar, W.FFlush, W.FClose;
    CallKeepsSound(w.Abs(), w.Env(), call);
    match call {
      case DoPutChar(c) => var _ := w.PutChar(c);
      case DoPutStr(bs) => var _ := w.PutStr(bs);
      case DoFlush => var _ := w.FFlush();
      case DoClose => var _ := w.FClose();
    }
  }

  ghost function StateOf(out: WriterStream, err: WriterStream): Session
    requires out.Valid() && err.Valid()
    reads out, out.buff, err, err.buff, out.req, out.req.conn
  {
    Session(out.Abs(), err.Abs(), out.Env())
  }

  /** Any interleaving of calls on the two writers of a request does to the streams and to the connection what
      the run of their values says. */
  method Interleave(out: WriterStream, err: WriterStream, ops: seq<Op>)
    requires Callable(out) && Callable(err) && out.req == err.req && out != err && out.buff != err.buff
    modifies out, out.buff, err, err.buff, out.req, out.req.conn
    ensures Callable(out) && Callable(err) && out.req.conn == old(out.req.conn)
    ensures StateOf(out, err) == Run(old(StateOf(out, err)), ops)
  {
    hide Apply, Run, WriterStream.Abs, WriterStream.Valid;
    assert ops[0..] == ops;
    for i := 0 to |ops|
      invariant Callable(out) && Callable(err) && out.req.conn == old(out.req.conn)
      invariant Run(StateOf(out, err), ops[i..]) == Run(old(StateOf(out, err)), ops)
    {
      assert ops[i..][0] == ops[i] && ops[i..][1..] == ops[i + 1..];
      RunOne(StateOf(out, err), ops[i..]);
      match ops[i] {
        case OnOut(call) => Perform(out, call);
        case OnErr(call) => Perform(err, call);
        case SetExitStatus(status) => out.req.appStatus := status;
      }
    }
    RunNone(StateOf(out, err), ops[|ops|..]);
  }

  lemma RunOne(st: Session, ops: seq<Op>)
    requires |ops| > 0
    ensures Run(st, ops) == Run(Step(st, ops[0]), ops[1..])
  {
    hide Apply;
  }

  lemma RunNone(st: Session, ops: seq<Op>)
    requires |ops| == 0
    ensures Run(st, ops) == st
  {
  }

  /** Writes with a new writer and reads what arrived with a new reader of the same type and request: no write fails if
      and only if the bytes to be sent fit the connection, and then what is read is what was put, for any buffer
      sizes, any calls, any partial writes and any partial reads. */
  method Loopback(kind: Byte, id: nat, bufflen: int, misaligned: bool, calls: seq<Call>, room: nat, readerBufflen: int)
    returns (got: Bytes, written: bool, ended: bool)
    requires kind != BEGIN_REQUEST && kind != STDERR && 0 < id < 65536 && NoClose(calls)
    ensures
      var empty := Holding(kind, W.BufferSize(bufflen, misaligned) - HEADER_LEN, 0, false);
      written <==> CallsCost(empty, false, calls + [DoClose]) <= room
    ensures written ==> got == PutBytes(calls) && ended
  {
    hide W.FClose, Apply, RunCalls, R.Drain, R.GetStr, WriterStream.Abs, ReaderStream.Abs, CallsCost;
    var conn := new Connection([], 0, room, 1);
    var req := new Request(conn, id);
    req.nWriters := 2;
    var w := new WriterStream(req, bufflen, misaligned, kind);
    ghost var start := w.Env();
    ghost var size := W.BufferSize(bufflen, misaligned);
    assert w.Abs() == CreateWriter(kind, size);
    AbsClosed(w);
    WriteAll(w, calls);
    ghost var ran := RunCalls(CreateWriter(kind, size), start, calls);
    CallsExactly(CreateWriter(kind, size), start, calls);
    written := w.FClose();
    AbsClosed(w);
    if !written {
      return [], false, false;
    }
    var conn2 := new Connection(conn.outgoing, 0, 0, 1);
    var req2 := new Request(conn2, id);
    req2.begun := true;
    var r := new ReaderStream(req2, readerBufflen, kind);
    ghost var reader := r.Abs();
    assert start.out == [] && [] + conn.outgoing == conn.outgoing && conn.outgoing + [] == conn.outgoing;
    RoundTrip(kind, size, start, calls, conn.outgoing, reader, []);
    got := r.GetStr(|PutBytes(calls)| + 1);
    ended := r.isClosed && r.errno == 0;
    AbsErrno(r);
    assert got + [] == got;
  }

  lemma AbsErrno(r: ReaderStream)
    requires r.Valid()
    ensures r.Abs().aborted == r.aborted && r.Abs().closed == r.isClosed
    ensures !r.aborted ==> r.Abs().errno == r.errno
  {
  }

  /** Calls on one writer, in order. */
  method WriteAll(w: WriterStream, calls: seq<Call>)
    requires Callable(w) && NoClose(calls) && !w.wasFCloseCalled
    modifies w, w.buff, w.req`nWriters, w.req.conn
    ensures Callable(w) && !w.wasFCloseCalled && w.req.conn == old(w.req.conn)
    ensures var r := RunCalls(old(w.Abs()), old(w.Env()), calls); w.Abs() == r.w && w.Env() == r.s
  {
    hide Apply, RunCalls, WriterStream.Abs;
    assert calls[0..] == calls;
    for i := 0 to |calls|
      invariant Callable(w) && !w.wasFCloseCalled && w.req.conn == old(w.req.conn)
      invariant var r, t := RunCalls(w.Abs(), w.Env(), calls[i..]), RunCalls(old(w.Abs()), old(w.Env()), calls);
                r.w == t.w && r.s == t.s
    {
      assert calls[i..][0] == calls[i] && calls[i..][1..] == calls[i + 1..];
      RunCallsOne(w.Abs(), w.Env(), calls[i..]);
      AbsClosed(w);
      StaysOpen(w.Abs(), w.Env(), calls[i]);
      Perform(w, calls[i]);
      AbsClosed(w);
    }
    RunCallsNone(w.Abs(), w.Env(), calls[|calls|..]);
  }

  lemma RunCallsOne(w: W.Writer, s: W.Shared, calls: seq<Call>)
    requires |calls| > 0
    ensures var r := Apply(w, s, calls[0]); RunCalls(w, s, calls) == RunCalls(r.w, r.s, calls[1..])
  {
    hide Apply;
  }

  lemma RunCallsNone(w: W.Writer, s: W.Shared, calls: seq<Call>)
    requires |calls| == 0
    ensures RunCalls(w, s, calls).w == w && RunCalls(w, s, calls).s == s
  {
    hide Apply;
  }

  lemma AbsClosed(w: WriterStream)
    requires w.Valid()
    ensures w.Abs().fclosed == w.wasFCloseCalled && w.Abs().raw == w.rawWrite && w.Abs().errno == w.errno
  {
  }

  lemma StaysOpen(w: W.Writer, s: W.Shared, call: Call)
    requires w.Sound() && !w.fclosed && !call.DoClose?
    ensures !Apply(w, s, call).w.fclosed
  {
    hide W.Flush, W.PutStr, W.FClose;
    match call {
      case DoPutChar(c) => FlushOpen(w, s);
      case DoPutStr(bs) => PutKeepsSound(w, s, bs);
      case DoFlush => FlushOpen(w, s);
    }
  }

  lemma FlushOpen(w: W.Writer, s: W.Shared)
    ensures W.Flush(w, s).0.fclosed == w.fclosed
  {
    hide W.Outgoing, W.Padded;
  }
}
