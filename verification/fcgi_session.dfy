/** The two writers of one request, driven by any interleaving of calls. */
module FcgiSession {
  import opened Common
  import opened FcgiWire
  import opened FcgiWriterSpec
  import opened FcgiWriterSteps
  import opened FcgiEmission

  datatype Call = DoPutChar(c: Byte) | DoPutStr(bs: Bytes) | DoFlush | DoClose

  datatype Op = OnOut(call: Call) | OnErr(call: Call) | SetExitStatus(status: int)

  /** FCGX_Request's output side after FCGX_Accept_r. */
  datatype Session = Session(out: Writer, err: Writer, s: Shared)

  function Apply(w: Writer, s: Shared, call: Call): Result {
    match call
    case DoPutChar(c) => PutChar(w, s, c)
    case DoPutStr(bs) => PutStr(w, s, bs)
    case DoFlush => FFlush(w, s)
    case DoClose => FClose(w, s)
  }

  /** The stream records a call sends, and the bytes it takes over from the caller. */
  function CallRecords(w: Writer, s: Shared, call: Call): seq<Rec> {
    if w.fclosed then []
    else
      match call
      case DoPutChar(c) => PutCharRecords(w, s)
      case DoPutStr(bs) => PutStrRecords(w, s, bs)
      case DoFlush => FlushRecords(w, s)
      case DoClose => FlushRecords(w, s) + if NeedsEof(w) then [EofRecord(w, s)] else []
  }

  function Taken(w: Writer, call: Call): Bytes {
    if w.fclosed then []
    else
      match call
      case DoPutChar(c) => [c]
      case DoPutStr(bs) => bs
      case _ => []
  }

  /** END_REQUEST is sent with the close of the last open writer. */
  function EndRecords(w: Writer, s: Shared, call: Call): seq<Rec> {
    if !w.fclosed && call.DoClose? && s.nWriters == 1 then [EndRequestRecord(s)] else []
  }

  // ---------- one stream ----------

  /** The shape of a closed stream: nonempty records with what was put, then one empty record; nothing
      at all for an error stream to which nothing was put. */
  predicate ClosedShape(rs: seq<Rec>, kind: Byte, id: int, put: Bytes) {
    if kind == STDERR && put == [] then rs == []
    else
      && |rs| > 0
      && rs[|rs| - 1] == Rec(kind, id, [], [])
      && DataRecords(rs[..|rs| - 1], kind, id)
      && Concat(rs[..|rs| - 1]) == put
  }

  /** rs are the records sent for the stream of w so far, put the bytes put to it. */
  predicate StreamInv(w: Writer, s: Shared, rs: seq<Rec>, put: Bytes) {
    if w.fclosed then w.closed && w.Sound() && w.errno == 0 && ClosedShape(rs, w.kind, s.requestId, put)
    else
      && Open(w, s) && DataRecords(rs, w.kind, s.requestId)
      && put == Concat(rs) + w.buf
      && w.any == (rs != [])
  }

  /** A step that moved bytes keeps the invariant of an open stream. */
  lemma MovedKeeps(w: Writer, s: Shared, w1: Writer, s1: Shared, more: seq<Rec>, bs: Bytes, rs: seq<Rec>, put: Bytes)
    requires !w.fclosed && StreamInv(w, s, rs, put) && Moved(w, s, w1, s1, more, bs)
    ensures StreamInv(w1, s1, rs + more, put + bs)
  {
    assert !w1.fclosed && s1.requestId == s.requestId;
    ConcatAppend(rs, more);
    ConcatAssoc(Concat(rs), w.buf, bs);
    ConcatAssoc(Concat(rs), Concat(more), w1.buf);
    hide Open, Sent;
  }

  lemma CloseKeeps(w: Writer, s: Shared, rs: seq<Rec>, put: Bytes)
    requires !w.fclosed && StreamInv(w, s, rs, put)
    ensures ClosedShape(rs + CallRecords(w, s, DoClose), w.kind, s.requestId, put)
  {
    var content := FlushRecords(w, s);
    var all := rs + CallRecords(w, s, DoClose);
    ConcatAppend(rs, content);
    if |w.buf| > 0 {
      ConcatOne(ContentRecord(w, s));
    }
    assert Concat(content) == w.buf;
    assert DataRecords(content, w.kind, s.requestId);
    if NeedsEof(w) {
      assert all == rs + content + [EofRecord(w, s)];
      assert all[..|all| - 1] == rs + content;
      assert rs != [] ==> |Concat(rs)| >= |rs[0].content| > 0;
    } else {
      assert rs == [] && put == [];
      assert all == [];
    }
  }

  /** A call on a closed stream does nothing. */
  lemma ClosedIgnores(w: Writer, s: Shared, call: Call)
    requires w.fclosed && w.closed
    ensures var r := Apply(w, s, call); r.w == w && r.s == s
  {
  }

  /** Any call that ends without a write error keeps the invariant; what it sent is whole records. */
  lemma CallKeeps(w: Writer, s: Shared, call: Call, rs: seq<Rec>, put: Bytes)
    requires StreamInv(w, s, rs, put) && Apply(w, s, call).w.errno == 0
    ensures
      var r := Apply(w, s, call);
      && StreamInv(r.w, r.s, rs + CallRecords(w, s, call), put + Taken(w, call))
      && r.w.kind == w.kind && r.w.fclosed == (w.fclosed || call.DoClose?)
      && r.s.out == s.out + Serialize(CallRecords(w, s, call) + EndRecords(w, s, call), [])
      && r.s == s.(out := r.s.out, room := r.s.room,
                   nWriters := if !w.fclosed && call.DoClose? then s.nWriters - 1 else s.nWriters)
  {
    var more := CallRecords(w, s, call);
    assert more + [] == more && put + [] == put && rs + [] == rs && s.out + [] == s.out;
    if w.fclosed {
      ClosedIgnores(w, s, call);
    } else {
      match call {
        case DoPutChar(c) =>
          PutCharMoves(w, s, c);
          CallMoved(w, s, call, rs, put);
        case DoPutStr(bs) =>
          PutStrMoves(w, s, bs);
          CallMoved(w, s, call, rs, put);
        case DoFlush =>
          FlushMoves(w, s);
          CallMoved(w, s, call, rs, put);
        case DoClose =>
          CloseSends(w, s);
          CloseKeeps(w, s, rs, put);
          assert CloseRecords(w, s) == more + EndRecords(w, s, call);
          hide FClose, CloseRecords, CallRecords, EndRecords;
      }
    }
  }

  lemma CallMoved(w: Writer, s: Shared, call: Call, rs: seq<Rec>, put: Bytes)
    requires !w.fclosed && StreamInv(w, s, rs, put) && !call.DoClose?
    requires var r := Apply(w, s, call); Moved(w, s, r.w, r.s, CallRecords(w, s, call), Taken(w, call))
    ensures
      var r := Apply(w, s, call);
      && StreamInv(r.w, r.s, rs + CallRecords(w, s, call), put + Taken(w, call))
      && r.w.kind == w.kind && r.w.fclosed == w.fclosed
      && r.s.out == s.out + Serialize(CallRecords(w, s, call), [])
      && r.s == s.(out := r.s.out, room := r.s.room)
  {
    hide Apply, CallRecords, Taken;
    var r := Apply(w, s, call);
    MovedKeeps(w, s, r.w, r.s, CallRecords(w, s, call), Taken(w, call), rs, put);
    hide StreamInv;
  }

  // ---------- both streams ----------

  /** The two writers as FCGX_Accept_r makes them, on a connection that has sent base before. */
  function Start(outSize: nat, errSize: nat, s: Shared): Session {
    Session(Writer(STDOUT, outSize, [], false, false, false, false, 0),
            Writer(STDERR, errSize, [], false, false, false, false, 0), s.(nWriters := 2))
  }

  function Step(st: Session, op: Op): Session {
    match op
    case OnOut(call) => var r := Apply(st.out, st.s, call); st.(out := r.w, s := r.s)
    case OnErr(call) => var r := Apply(st.err, st.s, call); st.(err := r.w, s := r.s)
    case SetExitStatus(status) => st.(s := st.s.(appStatus := status))
  }

  function Run(st: Session, ops: seq<Op>): Session
    decreases |ops|
  {
    if ops == [] then st else Run(Step(st, ops[0]), ops[1..])
  }

  /** What has happened so far, seen from outside: all records sent, the bytes put to each stream, and the
      exit status the last close found. */
  datatype Trace = Trace(recs: seq<Rec>, putOut: Bytes, putErr: Bytes, status: int)

  /** The records one step sends. */
  function StepRecords(st: Session, op: Op): seq<Rec> {
    match op
    case OnOut(call) => CallRecords(st.out, st.s, call) + EndRecords(st.out, st.s, call)
    case OnErr(call) => CallRecords(st.err, st.s, call) + EndRecords(st.err, st.s, call)
    case SetExitStatus(_) => []
  }

  function StepTrace(st: Session, op: Op, tr: Trace): (next: Trace)
    ensures next.recs == tr.recs + StepRecords(st, op)
  {
    match op
    case OnOut(call) =>
      tr.(recs := tr.recs + StepRecords(st, op),
          putOut := tr.putOut + Taken(st.out, call),
          status := if !st.out.fclosed && call.DoClose? then st.s.appStatus else tr.status)
    case OnErr(call) =>
      tr.(recs := tr.recs + StepRecords(st, op),
          putErr := tr.putErr + Taken(st.err, call),
          status := if !st.err.fclosed && call.DoClose? then st.s.appStatus else tr.status)
    case SetExitStatus(_) => tr
  }

  function RunTrace(st: Session, ops: seq<Op>, tr: Trace): Trace
    decreases |ops|
  {
    if ops == [] then tr else RunTrace(Step(st, ops[0]), ops[1..], StepTrace(st, ops[0], tr))
  }

  function OfKind(rs: seq<Rec>, kind: Byte): seq<Rec> {
    if rs == [] then [] else (if rs[0].kind == kind then [rs[0]] else []) + OfKind(rs[1..], kind)
  }

  lemma {:induction false} OfKindAppend(a: seq<Rec>, b: seq<Rec>, kind: Byte)
    ensures OfKind(a + b, kind) == OfKind(a, kind) + OfKind(b, kind)
  {
    if a == [] {
      assert a + b == b;
    } else {
      OfKindAppend(a[1..], b, kind);
      assert (a + b)[0] == a[0] && (a + b)[1..] == a[1..] + b;
    }
  }

  lemma {:induction false} OfOwnKind(rs: seq<Rec>, own: Byte, kind: Byte)
    requires forall i :: 0 <= i < |rs| ==> rs[i].kind == own
    ensures OfKind(rs, kind) == if own == kind then rs else []
  {
    if rs != [] {
      OfOwnKind(rs[1..], own, kind);
    }
  }

  function OpenCount(st: Session): int {
    (if st.out.fclosed then 0 else 1) + (if st.err.fclosed then 0 else 1)
  }

  /** The promise about the records the writers of one request send. */
  predicate StreamsInv(st: Session, tr: Trace) {
    && st.out.kind == STDOUT && st.err.kind == STDERR
    && StreamInv(st.out, st.s, OfKind(tr.recs, STDOUT), tr.putOut)
    && StreamInv(st.err, st.s, OfKind(tr.recs, STDERR), tr.putErr)
    && st.s.nWriters == OpenCount(st)
    && EndShape(tr.recs, st.s.requestId, tr.status, OpenCount(st) == 0)
  }

  /** The promise about the wire: it carries just these records. */
  predicate SessionInv(st: Session, tr: Trace, base: Bytes) {
    StreamsInv(st, tr) && st.s.out == base + Serialize(tr.recs, [])
  }

  /** Every record belongs to one of the two streams, except that an ended request has exactly one
      END_REQUEST, behind everything else. */
  predicate EndShape(rs: seq<Rec>, id: int, status: int, ended: bool) {
    if ended then
      && |rs| > 0
      && rs[|rs| - 1] == Rec(END_REQUEST, id, MakeEndRequestBody(status, REQUEST_COMPLETE), [])
      && forall i :: 0 <= i < |rs| - 1 ==> rs[i].kind == STDOUT || rs[i].kind == STDERR
    else
      forall i :: 0 <= i < |rs| ==> rs[i].kind == STDOUT || rs[i].kind == STDERR
  }

  lemma CallRecordsOwnKind(w: Writer, s: Shared, call: Call)
    requires w.fclosed || Open(w, s)
    requires Apply(w, s, call).w.errno == 0
    ensures forall i :: 0 <= i < |CallRecords(w, s, call)| ==> CallRecords(w, s, call)[i].kind == w.kind
  {
    if !w.fclosed {
      match call {
        case DoPutChar(c) => PutCharMoves(w, s, c);
        case DoPutStr(bs) => PutStrMoves(w, s, bs); hide PutStrRecords;
        case DoFlush => FlushMoves(w, s);
        case DoClose =>
      }
    }
  }

  /** The records a call adds, sorted by kind. */
  lemma AddedByKind(recs: seq<Rec>, w: Writer, s: Shared, call: Call, kind: Byte)
    requires w.fclosed || Open(w, s)
    requires Apply(w, s, call).w.errno == 0 && (w.kind == STDOUT || w.kind == STDERR)
    requires kind == STDOUT || kind == STDERR
    ensures
      OfKind(recs + (CallRecords(w, s, call) + EndRecords(w, s, call)), kind) ==
        if kind == w.kind then OfKind(recs, kind) + CallRecords(w, s, call) else OfKind(recs, kind)
  {
    var a, b := CallRecords(w, s, call), EndRecords(w, s, call);
    CallRecordsOwnKind(w, s, call);
    hide CallRecords, Apply;
    OfKindAppend(recs, a + b, kind);
    OfKindAppend(a, b, kind);
    OfOwnKind(a, w.kind, kind);
    OfOwnKind(b, END_REQUEST, kind);
    assert a + [] == a && OfKind(recs, kind) + [] == OfKind(recs, kind);
  }

  lemma EndShapeStep(recs: seq<Rec>, w: Writer, s: Shared, call: Call, status: int, open: int)
    requires w.fclosed || Open(w, s)
    requires Apply(w, s, call).w.errno == 0 && (w.kind == STDOUT || w.kind == STDERR)
    requires s.nWriters == open && (!w.fclosed ==> open >= 1)
    requires EndShape(recs, s.requestId, status, open == 0)
    ensures
      var closing := !w.fclosed && call.DoClose?;
      EndShape(recs + (CallRecords(w, s, call) + EndRecords(w, s, call)), s.requestId,
               if closing then s.appStatus else status, (if closing then open - 1 else open) == 0)
  {
    var a, b := CallRecords(w, s, call), EndRecords(w, s, call);
    CallRecordsOwnKind(w, s, call);
    if w.fclosed {
      assert recs + (a + b) == recs;
    }
    hide CallRecords, Apply;
    var all := recs + (a + b);
    if b == [] {
      assert all == recs + a;
    } else {
      assert all == recs + a + b;
      assert all[|all| - 1] == b[0];
    }
  }

  /** Serialized output grows by the records of the call. */
  lemma OutputGrows(base: Bytes, recs: seq<Rec>, more: seq<Rec>)
    ensures base + Serialize(recs, []) + Serialize(more, []) == base + Serialize(recs + more, [])
  {
    SerializeAppend(recs, more, []);
    SerializeRest(recs, Serialize(more, []));
    ConcatAssoc(base, Serialize(recs, []), Serialize(more, []));
  }

  /** The stream that was not called does not notice. */
  lemma OtherStream(w: Writer, s: Shared, t: Shared, rs: seq<Rec>, put: Bytes)
    requires StreamInv(w, s, rs, put) && t.requestId == s.requestId && t.writeErrno == s.writeErrno
    ensures StreamInv(w, t, rs, put)
  {
  }

  /** One call of either writer, or a change of the exit status, sends whole records and keeps the promise. */
  lemma StepStreams(st: Session, op: Op, tr: Trace)
    requires StreamsInv(st, tr)
    requires Step(st, op).out.errno == 0 && Step(st, op).err.errno == 0
    ensures StreamsInv(Step(st, op), StepTrace(st, op, tr))
    ensures Step(st, op).s.out == st.s.out + Serialize(StepRecords(st, op), [])
    ensures Step(st, op).s.requestId == st.s.requestId
  {
    hide Apply, CallRecords, EndRecords, Taken, StreamInv, EndShape, OfKind;
    match op {
      case OnOut(call) =>
        var r := Apply(st.out, st.s, call);
        CallKeeps(st.out, st.s, call, OfKind(tr.recs, STDOUT), tr.putOut);
        OtherStream(st.err, st.s, r.s, OfKind(tr.recs, STDERR), tr.putErr);
        InvOpens(st.out, st.s, OfKind(tr.recs, STDOUT), tr.putOut);
        AddedByKind(tr.recs, st.out, st.s, call, STDOUT);
        AddedByKind(tr.recs, st.out, st.s, call, STDERR);
        EndShapeStep(tr.recs, st.out, st.s, call, tr.status, OpenCount(st));
      case OnErr(call) =>
        var r := Apply(st.err, st.s, call);
        CallKeeps(st.err, st.s, call, OfKind(tr.recs, STDERR), tr.putErr);
        OtherStream(st.out, st.s, r.s, OfKind(tr.recs, STDOUT), tr.putOut);
        InvOpens(st.err, st.s, OfKind(tr.recs, STDERR), tr.putErr);
        AddedByKind(tr.recs, st.err, st.s, call, STDOUT);
        AddedByKind(tr.recs, st.err, st.s, call, STDERR);
        EndShapeStep(tr.recs, st.err, st.s, call, tr.status, OpenCount(st));
      case SetExitStatus(status) =>
        assert st.s.out + [] == st.s.out && tr.recs + [] == tr.recs;
        OtherStream(st.out, st.s, st.s.(appStatus := status), OfKind(tr.recs, STDOUT), tr.putOut);
        OtherStream(st.err, st.s, st.s.(appStatus := status), OfKind(tr.recs, STDERR), tr.putErr);
    }
  }

  /** The wire grows by just these records. */
  lemma StepKeeps(st: Session, op: Op, tr: Trace, base: Bytes)
    requires SessionInv(st, tr, base)
    requires Step(st, op).out.errno == 0 && Step(st, op).err.errno == 0
    ensures SessionInv(Step(st, op), StepTrace(st, op, tr), base)
  {
    hide StreamsInv, Step, StepRecords;
    StepStreams(st, op, tr);
    OutputGrows(base, tr.recs, StepRecords(st, op));
  }

  lemma InvOpens(w: Writer, s: Shared, rs: seq<Rec>, put: Bytes)
    requires StreamInv(w, s, rs, put)
    ensures w.fclosed || Open(w, s)
  {
  }

  lemma CallKeepsError(w: Writer, s: Shared, call: Call)
    requires w.errno != 0
    ensures Apply(w, s, call).w.errno != 0
  {
    hide Flush, PutStr, Outgoing;
    FlushKeepsError(w, s);
    match call {
      case DoPutChar(c) =>
      case DoPutStr(bs) => PutKeepsError(w, s, bs);
      case DoFlush =>
      case DoClose => CloseKeepsError(w, s);
    }
  }

  lemma CloseKeepsError(w: Writer, s: Shared)
    requires w.errno != 0
    ensures FClose(w, s).w.errno != 0
  {
    hide Flush, PutStr, Outgoing, EofRecord, EndRequestRecord;
    var sealed := w.(buf := Outgoing(w, s));
    var raw := sealed.(raw := true);
    PutKeepsError(raw, s, EofRecord(sealed, s).Encode());
    var r := if NeedsEof(sealed) then PutStr(raw, s, EofRecord(sealed, s).Encode()) else Result(true, raw, s);
    PutKeepsError(r.w, r.s, EndRequestRecord(s).Encode());
    var (w1, s1) := WriteCloseRecords(sealed, s);
    FlushKeepsError(w1, s1);
  }

  lemma {:induction false} RunKeepsError(st: Session, ops: seq<Op>)
    requires st.out.errno != 0 || st.err.errno != 0
    ensures Run(st, ops).out.errno != 0 || Run(st, ops).err.errno != 0
    decreases |ops|
  {
    if ops != [] {
      hide Apply;
      match ops[0] {
        case OnOut(call) => if st.out.errno != 0 { CallKeepsError(st.out, st.s, call); }
        case OnErr(call) => if st.err.errno != 0 { CallKeepsError(st.err, st.s, call); }
        case SetExitStatus(_) =>
      }
      RunKeepsError(Step(st, ops[0]), ops[1..]);
    }
  }

  lemma {:induction false} RunKeeps(st: Session, ops: seq<Op>, tr: Trace, base: Bytes)
    requires SessionInv(st, tr, base)
    requires Run(st, ops).out.errno == 0 && Run(st, ops).err.errno == 0
    ensures SessionInv(Run(st, ops), RunTrace(st, ops, tr), base)
    decreases |ops|
  {
    hide SessionInv, Step, StepTrace;
    if ops != [] {
      var next := Step(st, ops[0]);
      if next.out.errno != 0 || next.err.errno != 0 {
        RunKeepsError(next, ops[1..]);
      } else {
        StepKeeps(st, ops[0], tr, base);
        RunKeeps(next, ops[1..], StepTrace(st, ops[0], tr), base);
      }
    }
  }

  /** Every interleaving of writes, flushes and closes on the two writers of a request, as long as no write
      fails: at every call boundary the wire holds whole records that carry, stream by stream and in order,
      exactly what was put and is no longer buffered; a stream's empty record comes only with its close,
      and for the error stream only if something was put to it; END_REQUEST comes once, last, with the
      second close. */
  lemma EveryInterleaving(outSize: nat, errSize: nat, s: Shared, ops: seq<Op>)
    requires outSize % 8 == 0 && 24 <= outSize <= MAX_LENGTH + 1 && errSize % 8 == 0 && 24 <= errSize <= MAX_LENGTH + 1
    requires 0 <= s.requestId < 65536 && s.writeErrno != 0
    ensures
      var start := Start(outSize, errSize, s);
      var end := Run(start, ops);
      end.out.errno == 0 && end.err.errno == 0 ==>
        SessionInv(end, RunTrace(start, ops, Trace([], [], [], 0)), s.out)
  {
    var start := Start(outSize, errSize, s);
    var end := Run(start, ops);
    assert s.out + [] == s.out;
    assert [] + start.out.buf == [];
    if end.out.errno == 0 && end.err.errno == 0 {
      RunKeeps(start, ops, Trace([], [], [], 0), s.out);
    }
  }

  lemma {:induction false} PutKeepsSound(w: Writer, s: Shared, bs: Bytes)
    requires w.Sound()
    ensures PutStr(w, s, bs).w.Sound() && PutStr(w, s, bs).w.fclosed == w.fclosed && PutStr(w, s, bs).w.raw == w.raw
    decreases |bs|
  {
    hide Flush;
    if |bs| > 0 {
      if !w.fclosed {
        FlushMakesRoom(w, s);
      }
      var r := PutChar(w, s, bs[0]);
      if r.ok {
        PutKeepsSound(r.w, r.s, bs[1..]);
      }
    }
  }

  /** The buffer stays sound over every call, with or without write errors: its length keeps its bounds and
      its alignment and what is buffered fits. */
  lemma CallKeepsSound(w: Writer, s: Shared, call: Call)
    requires w.Sound() && (w.raw ==> w.fclosed)
    ensures var r := Apply(w, s, call); r.w.Sound() && (r.w.raw ==> r.w.fclosed)
  {
    hide Flush, PutStr;
    if !w.fclosed {
      FlushMakesRoom(w, s);
    }
    match call {
      case DoPutChar(c) =>
      case DoPutStr(bs) => PutKeepsSound(w, s, bs);
      case DoFlush =>
      case DoClose => if !w.fclosed { CloseKeepsSound(w, s); }
    }
  }

  lemma CloseKeepsSound(w: Writer, s: Shared)
    requires w.Sound() && !w.raw && !w.fclosed
    ensures FClose(w, s).w.Sound() && FClose(w, s).w.fclosed
  {
    BufferArithmetic(w, s);
    var sealed := w.(buf := Outgoing(w, s));
    var raw := sealed.(raw := true);
    assert raw.Sound();
    hide Flush, PutStr, Outgoing, EofRecord, EndRequestRecord;
    PutKeepsSound(raw, s, EofRecord(sealed, s).Encode());
    var r := if NeedsEof(sealed) then PutStr(raw, s, EofRecord(sealed, s).Encode()) else Result(true, raw, s);
    PutKeepsSound(r.w, r.s, EndRequestRecord(s).Encode());
    var (w1, s1) := WriteCloseRecords(sealed, s);
    FlushMakesRoom(w1, s1);
  }
}
