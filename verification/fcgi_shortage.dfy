/** What a connection that stops accepting bytes has got: a prefix of what it would have got otherwise. */
module FcgiShortage {
  import opened FcgiWire
  import opened FcgiWriterSpec
  import opened FcgiSession
  import opened FcgiCapacity

  /** The same connection, of which t accepts at least as much as s. */
  predicate LessRoom(s: Shared, t: Shared) {
    s.room <= t.room && s == t.(room := s.room)
  }

  /** s is used up, and t has got at least as much. */
  predicate Behind(s: Shared, t: Shared) {
    s.room == 0 && s.out <= t.out
  }

  /** The same has happened on both connections, or the one with less room is used up. */
  predicate Lags(r: Result, q: Result) {
    (r.ok == q.ok && r.w == q.w && LessRoom(r.s, q.s)) || Behind(r.s, q.s)
  }

  /** Bytes are only ever sent, and none of them without room. */
  predicate Sends(s: Shared, t: Shared) {
    s.out <= t.out && Conserves(s, t)
  }

  lemma SendsBoth(s: Shared, t: Shared, u: Shared)
    requires Sends(s, t) && Sends(t, u)
    ensures Sends(s, u)
  {
  }

  /** What is behind stays behind. */
  lemma StaysBehind(s: Shared, t: Shared, s1: Shared, t1: Shared)
    requires Behind(s, t) && Sends(s, s1) && Sends(t, t1)
    ensures Behind(s1, t1)
  {
  }

  // ---------- sending ----------

  lemma FlushSends(w: Writer, s: Shared)
    ensures Sends(s, Flush(w, s).1)
  {
    hide Outgoing;
  }

  lemma PutCharSends(w: Writer, s: Shared, c: Byte)
    ensures Sends(s, PutChar(w, s, c).s)
  {
    hide Flush;
    FlushSends(w, s);
  }

  lemma {:induction false} PutStrSends(w: Writer, s: Shared, bs: Bytes)
    ensures Sends(s, PutStr(w, s, bs).s)
    decreases |bs|
  {
    hide PutChar;
    if |bs| > 0 {
      PutCharSends(w, s, bs[0]);
      var r := PutChar(w, s, bs[0]);
      if r.ok {
        PutStrSends(r.w, r.s, bs[1..]);
        SendsBoth(s, r.s, PutStr(r.w, r.s, bs[1..]).s);
      }
    }
  }

  lemma CloseRecordsSend(w: Writer, s: Shared)
    ensures Sends(s, WriteCloseRecords(w, s).1)
  {
    hide PutStr, EofRecord, EndRequestRecord;
    var raw := w.(raw := true);
    PutStrSends(raw, s, EofRecord(w, s).Encode());
    var r := if NeedsEof(w) then PutStr(raw, s, EofRecord(w, s).Encode()) else Result(true, raw, s);
    PutStrSends(r.w, r.s, EndRequestRecord(s).Encode());
  }

  lemma CallSends(w: Writer, s: Shared, call: Call)
    ensures Sends(s, Apply(w, s, call).s)
  {
    hide Flush, PutStr, WriteCloseRecords, Outgoing;
    match call {
      case DoPutChar(c) => PutCharSends(w, s, c);
      case DoPutStr(bs) => PutStrSends(w, s, bs);
      case DoFlush => FlushSends(w, s);
      case DoClose =>
        var sealed := w.(buf := Outgoing(w, s));
        CloseRecordsSend(sealed, s);
        var (w1, s1) := WriteCloseRecords(sealed, s);
        FlushSends(w1, s1);
    }
  }

  // ---------- sending with less room ----------

  lemma FlushLags(w: Writer, s: Shared, t: Shared, ok: bool)
    requires LessRoom(s, t)
    ensures
      var (w1, s1) := Flush(w, s);
      var (v1, t1) := Flush(w, t);
      Lags(Result(ok, w1, s1), Result(ok, v1, t1))
  {
    assert Outgoing(w, s) == Outgoing(w, t);
    hide Outgoing;
    var bs := Outgoing(w, s);
    if s.room < |bs| {
      assert bs[..s.room] <= bs;
      if t.room < |bs| {
        assert bs[..s.room] <= bs[..t.room];
      }
    }
  }

  lemma PutCharLags(w: Writer, s: Shared, t: Shared, c: Byte)
    requires LessRoom(s, t)
    ensures Lags(PutChar(w, s, c), PutChar(w, t, c))
  {
    hide Flush;
    FlushLags(w, s, t, true);
  }

  lemma {:induction false} PutStrLags(w: Writer, s: Shared, t: Shared, bs: Bytes)
    requires LessRoom(s, t)
    ensures Lags(PutStr(w, s, bs), PutStr(w, t, bs))
    decreases |bs|
  {
    hide PutChar;
    if |bs| > 0 {
      PutCharLags(w, s, t, bs[0]);
      var r, q := PutChar(w, s, bs[0]), PutChar(w, t, bs[0]);
      if Behind(r.s, q.s) {
        PutStrSends(r.w, r.s, bs[1..]);
        PutStrSends(q.w, q.s, bs[1..]);
        SendsNothing(r.s);
        SendsNothing(q.s);
        StaysBehind(r.s, q.s, PutStr(w, s, bs).s, PutStr(w, t, bs).s);
      } else if r.ok {
        PutStrLags(r.w, r.s, q.s, bs[1..]);
      }
    }
  }

  lemma SendsNothing(s: Shared)
    ensures Sends(s, s)
  {
  }

  /** One result follows another on both connections. */
  lemma LagsOn(r: Result, q: Result, r1: Result, q1: Result)
    requires Lags(r, q) && Sends(r.s, r1.s) && Sends(q.s, q1.s)
    requires r.ok == q.ok && r.w == q.w && LessRoom(r.s, q.s) ==> Lags(r1, q1)
    ensures Lags(r1, q1)
  {
    hide Sends;
    if Behind(r.s, q.s) {
      StaysBehind(r.s, q.s, r1.s, q1.s);
    }
  }

  /** The end of the stream is put, if it needs one. */
  function PutEof(w: Writer, s: Shared): Result {
    if NeedsEof(w) then PutStr(w.(raw := true), s, EofRecord(w, s).Encode()) else Result(true, w.(raw := true), s)
  }

  /** The end of the request is put by its last writer. */
  function PutEnd(r: Result, end: Bytes): Result {
    if r.s.nWriters == 1 then PutStr(r.w, r.s, end) else r
  }

  lemma CloseRecordsLag(w: Writer, s: Shared, t: Shared, ok: bool)
    requires LessRoom(s, t)
    ensures
      var (w1, s1) := WriteCloseRecords(w, s);
      var (v1, t1) := WriteCloseRecords(w, t);
      Lags(Result(ok, w1, s1), Result(ok, v1, t1))
  {
    assert EofRecord(w, s) == EofRecord(w, t) && EndRequestRecord(s) == EndRequestRecord(t);
    hide PutStr, EofRecord, EndRequestRecord;
    var raw, eof, end := w.(raw := true), EofRecord(w, s).Encode(), EndRequestRecord(s).Encode();
    PutStrLags(raw, s, t, eof);
    var r, q := PutEof(w, s), PutEof(w, t);
    PutStrSends(r.w, r.s, end);
    PutStrSends(q.w, q.s, end);
    SendsNothing(r.s);
    SendsNothing(q.s);
    if r.ok == q.ok && r.w == q.w && LessRoom(r.s, q.s) {
      PutStrLags(r.w, r.s, q.s, end);
    }
    LagsOn(r, q, PutEnd(r, end), PutEnd(q, end));
  }

  lemma CloseLags(w: Writer, s: Shared, t: Shared)
    requires LessRoom(s, t)
    ensures Lags(FClose(w, s), FClose(w, t))
  {
    assert Outgoing(w, s) == Outgoing(w, t);
    hide Flush, WriteCloseRecords, Outgoing;
    var sealed := w.(buf := Outgoing(w, s));
    CloseRecordsLag(sealed, s, t, true);
    var (w1, s1) := WriteCloseRecords(sealed, s);
    var (v1, t1) := WriteCloseRecords(sealed, t);
    FlushSends(w1, s1);
    FlushSends(v1, t1);
    if w1 == v1 && LessRoom(s1, t1) {
      FlushLags(w1, s1, t1, true);
    } else {
      StaysBehind(s1, t1, Flush(w1, s1).1, Flush(v1, t1).1);
    }
  }

  lemma CallLags(w: Writer, s: Shared, t: Shared, call: Call)
    requires LessRoom(s, t)
    ensures Lags(Apply(w, s, call), Apply(w, t, call))
  {
    hide Flush, PutChar, PutStr, FClose;
    match call {
      case DoPutChar(c) => PutCharLags(w, s, t, c);
      case DoPutStr(bs) => PutStrLags(w, s, t, bs);
      case DoFlush => FlushLags(w, s, t, true);
      case DoClose => CloseLags(w, s, t);
    }
  }

  // ---------- whole runs ----------

  /** Two runs of the same request. */
  predicate RunLags(st: Session, tt: Session) {
    (st.out == tt.out && st.err == tt.err && LessRoom(st.s, tt.s)) || Behind(st.s, tt.s)
  }

  lemma StepSends(st: Session, op: Op)
    ensures Sends(st.s, Step(st, op).s)
  {
    hide Apply;
    match op {
      case OnOut(call) => CallSends(st.out, st.s, call);
      case OnErr(call) => CallSends(st.err, st.s, call);
      case SetExitStatus(_) =>
    }
  }

  lemma StepLags(st: Session, tt: Session, op: Op)
    requires RunLags(st, tt)
    ensures RunLags(Step(st, op), Step(tt, op))
  {
    hide Apply;
    StepSends(st, op);
    StepSends(tt, op);
    if Behind(st.s, tt.s) {
      StaysBehind(st.s, tt.s, Step(st, op).s, Step(tt, op).s);
    } else {
      match op {
        case OnOut(call) => CallLags(st.out, st.s, tt.s, call);
        case OnErr(call) => CallLags(st.err, st.s, tt.s, call);
        case SetExitStatus(_) =>
      }
    }
  }

  lemma {:induction false} RunSends(st: Session, ops: seq<Op>)
    ensures Sends(st.s, Run(st, ops).s)
    decreases |ops|
  {
    hide Step;
    if ops != [] {
      StepSends(st, ops[0]);
      RunSends(Step(st, ops[0]), ops[1..]);
      SendsBoth(st.s, Step(st, ops[0]).s, Run(st, ops).s);
    }
  }

  lemma {:induction false} RunsLag(st: Session, tt: Session, ops: seq<Op>)
    requires RunLags(st, tt)
    ensures RunLags(Run(st, ops), Run(tt, ops))
    decreases |ops|
  {
    hide Step, RunLags;
    if ops != [] {
      StepLags(st, tt, ops[0]);
      RunsLag(Step(st, ops[0]), Step(tt, ops[0]), ops[1..]);
    }
  }

  /** Whatever the calls, and wherever a write fails: the connection has got the prefix, as long as it accepted bytes,
      of what the same calls send when it accepts more. */
  lemma FailingRunSendsPrefix(st: Session, room: nat, ops: seq<Op>)
    requires room <= st.s.room
    ensures
      var little := Run(st.(s := st.s.(room := room)), ops).s.out;
      var much := Run(st, ops).s.out;
      var accepted := |st.s.out| + room;
      little == if accepted <= |much| then much[..accepted] else much
  {
    hide Run;
    var less := st.(s := st.s.(room := room));
    RunsLag(less, st, ops);
    RunSends(less, ops);
  }
}
