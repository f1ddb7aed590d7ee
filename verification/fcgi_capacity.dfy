/** How much room on the connection a run of calls needs: the exact condition for no write to fail. */
module FcgiCapacity {
  import opened FcgiWire
  import opened FcgiWriterSpec
  import opened FcgiEmission
  import opened FcgiSession
  import opened FcgiRoundTrip

  /** What of a writer decides how much it will send: how many bytes it buffers out of how many it can, and whether it
      has sent anything. */
  datatype Level = Closed | Holding(kind: Byte, capacity: nat, n: nat, any: bool)

  function LevelOf(w: Writer): Level
    requires w.Sound()
  {
    if w.fclosed then Closed else Holding(w.kind, w.Capacity(), |w.buf|, w.any)
  }

  /** Bytes of the record around n bytes of content. */
  function RecordSize(n: nat): nat {
    if n == 0 then 0 else HEADER_LEN + n + PaddingFor(n)
  }

  function FlushCost(l: Level): (res: (Level, nat))
    requires l.Holding?
    ensures res.0.Holding?
  {
    if l.n == 0 then (l, 0) else (l.(n := 0, any := true), RecordSize(l.n))
  }

  /** Bytes sent by putting k bytes, one after the other. */
  function PutCost(l: Level, k: nat): (res: (Level, nat))
    requires l.Holding?
    ensures res.0.Holding?
    decreases k
  {
    if k == 0 then (l, 0)
    else if l.n < l.capacity then PutCost(l.(n := l.n + 1), k - 1)
    else
      var (m, b) := FlushCost(l);
      var (r, c) := PutCost(m.(n := 1), k - 1);
      (r, b + c)
  }

  /** Bytes sent by closing: the rest, the end of the stream, and the end of the request by its last writer. */
  function CloseCost(l: Level, last: bool): nat
    requires l.Holding?
  {
    RecordSize(l.n)
    + (if l.kind != STDERR || l.n > 0 || l.any then HEADER_LEN else 0)
    + (if last then HEADER_LEN + 8 else 0)
  }

  function CallCost(l: Level, last: bool, call: Call): (Level, nat) {
    if l.Closed? then (l, 0)
    else
      match call
      case DoPutChar(_) => PutCost(l, 1)
      case DoPutStr(bs) => PutCost(l, |bs|)
      case DoFlush => FlushCost(l)
      case DoClose => (Closed, CloseCost(l, last))
  }

  /** Between calls, without an error so far. */
  predicate Running(w: Writer, s: Shared) {
    if w.fclosed then w.Sound() && w.errno == 0 else Open(w, s)
  }

  /** The call needs b bytes and leaves the writer at level l: it succeeds if there is room, and fails if not. */
  predicate Exactly(s: Shared, r: Result, l: Level, b: nat) {
    && (b <= s.room ==> Running(r.w, r.s) && LevelOf(r.w) == l && r.s.room == s.room - b)
    && (b > s.room ==> r.w.errno != 0)
  }

  lemma FlushExactly(w: Writer, s: Shared)
    requires Open(w, s)
    ensures var (w1, s1) := Flush(w, s);
            var (l, b) := FlushCost(LevelOf(w));
            Exactly(s, Result(true, w1, s1), l, b) && (b <= s.room ==> !w1.fclosed && |w1.buf| == 0)
  {
    hide MakeHeader, Zeros;
    FlushMoves(w, s);
    assert |Outgoing(w, s)| == RecordSize(|w.buf|);
  }

  lemma PutCharExactly(w: Writer, s: Shared, c: Byte)
    requires Open(w, s)
    ensures var (l, b) := PutCost(LevelOf(w), 1); Exactly(s, PutChar(w, s, c), l, b)
  {
    hide Flush;
    if w.Full() {
      FlushExactly(w, s);
    }
  }

  lemma PutCharStaysOpen(w: Writer, s: Shared, c: Byte)
    requires Open(w, s) && PutChar(w, s, c).w.errno == 0
    ensures var r := PutChar(w, s, c); r.ok && Open(r.w, r.s) && !r.w.fclosed
  {
    PutCharMoves(w, s, c);
    hide PutChar;
  }

  /** Putting k + 1 bytes is putting one and then k. */
  lemma PutCostStep(l: Level, k: nat)
    requires l.Holding?
    ensures
      var (m, b) := PutCost(l, 1);
      var (r, c) := PutCost(m, k);
      PutCost(l, k + 1) == (r, b + c)
  {
    var (f, _) := FlushCost(l);
    NoCost(l.(n := l.n + 1));
    NoCost(f.(n := 1));
  }

  lemma {:induction false} PutStrExactly(w: Writer, s: Shared, bs: Bytes)
    requires Open(w, s)
    ensures var (l, b) := PutCost(LevelOf(w), |bs|); Exactly(s, PutStr(w, s, bs), l, b)
    decreases |bs|
  {
    hide PutChar, PutCost;
    if |bs| == 0 {
      NoCost(LevelOf(w));
    } else {
      var r := PutChar(w, s, bs[0]);
      PutCharExactly(w, s, bs[0]);
      PutCostStep(LevelOf(w), |bs| - 1);
      if r.w.errno != 0 {
        PutKeepsError(r.w, r.s, bs[1..]);
      } else {
        PutCharStaysOpen(w, s, bs[0]);
        PutStrExactly(r.w, r.s, bs[1..]);
      }
    }
  }

  lemma NoCost(l: Level)
    requires l.Holding?
    ensures PutCost(l, 0) == (l, 0)
  {
  }

  // ---------- closing ----------

  /** Whatever is sent takes room, whether or not a write fails. */
  predicate Conserves(s: Shared, t: Shared) {
    |t.out| + t.room == |s.out| + s.room
  }

  lemma FlushConserves(w: Writer, s: Shared)
    ensures Conserves(s, Flush(w, s).1)
  {
    hide Outgoing;
  }

  lemma {:induction false} PutStrConserves(w: Writer, s: Shared, bs: Bytes)
    ensures Conserves(s, PutStr(w, s, bs).s)
    decreases |bs|
  {
    hide Flush;
    if |bs| > 0 {
      FlushConserves(w, s);
      var r := PutChar(w, s, bs[0]);
      if r.ok {
        PutStrConserves(r.w, r.s, bs[1..]);
      }
    }
  }

  lemma CloseConserves(w: Writer, s: Shared)
    ensures Conserves(s, FClose(w, s).s)
  {
    hide Flush, PutStr, Outgoing, EofRecord, EndRequestRecord;
    var sealed := w.(buf := Outgoing(w, s));
    var raw := sealed.(raw := true);
    PutStrConserves(raw, s, EofRecord(sealed, s).Encode());
    var r := if NeedsEof(sealed) then PutStr(raw, s, EofRecord(sealed, s).Encode()) else Result(true, raw, s);
    PutStrConserves(r.w, r.s, EndRequestRecord(s).Encode());
    var (w1, s1) := WriteCloseRecords(sealed, s);
    FlushConserves(w1, s1);
  }

  /** Raw bytes with room for everything that is not yet sent. */
  lemma RawPutCharFits(w: Writer, s: Shared, c: Byte)
    requires RawOpen(w, s) && |w.buf| + 1 <= s.room
    ensures var r := PutChar(w, s, c);
            && r.ok && RawOpen(r.w, r.s) && r.s.room - |r.w.buf| == s.room - |w.buf| - 1 && r.s.nWriters == s.nWriters
  {
  }

  lemma {:induction false} RawPutStrFits(w: Writer, s: Shared, bs: Bytes)
    requires RawOpen(w, s) && |w.buf| + |bs| <= s.room
    ensures var r := PutStr(w, s, bs);
            && r.ok && RawOpen(r.w, r.s) && r.s.nWriters == s.nWriters
            && r.s.room - |r.w.buf| == s.room - |w.buf| - |bs|
    decreases |bs|
  {
    hide PutChar;
    if |bs| > 0 {
      RawPutCharFits(w, s, bs[0]);
      var r := PutChar(w, s, bs[0]);
      RawPutStrFits(r.w, r.s, bs[1..]);
    }
  }

  lemma CloseRecordsFit(w: Writer, s: Shared)
    requires RawOpen(w.(raw := true), s)
    requires
      var eof, end := if NeedsEof(w) then HEADER_LEN else 0, if s.nWriters == 1 then HEADER_LEN + 8 else 0;
      |w.buf| + eof + end <= s.room
    ensures var (w1, s1) := WriteCloseRecords(w, s); RawOpen(w1, s1) && |w1.buf| <= s1.room
  {
    hide PutStr, MakeHeader, MakeEndRequestBody;
    var raw := w.(raw := true);
    var eof, end := EofRecord(w, s).Encode(), EndRequestRecord(s).Encode();
    assert |eof| == HEADER_LEN && |end| == HEADER_LEN + 8;
    hide EofRecord, EndRequestRecord;
    var r := if NeedsEof(w) then PutStr(raw, s, eof) else Result(true, raw, s);
    if NeedsEof(w) {
      RawPutStrFits(raw, s, eof);
    }
    if r.s.nWriters == 1 {
      RawPutStrFits(r.w, r.s, end);
    }
  }

  lemma RawFlushFits(w: Writer, s: Shared)
    requires RawOpen(w, s) && |w.buf| <= s.room
    ensures Flush(w, s).0.errno == 0
  {
  }

  lemma SealedSize(w: Writer, s: Shared)
    requires Open(w, s)
    ensures |Outgoing(w, s)| == RecordSize(|w.buf|) && RawOpen(w.(buf := Outgoing(w, s), raw := true), s)
    ensures NeedsEof(w.(buf := Outgoing(w, s))) == NeedsEof(w)
  {
    SealedFits(w, s);
    hide MakeHeader, Zeros;
  }

  lemma CloseWithRoom(w: Writer, s: Shared)
    requires Open(w, s) && CloseCost(LevelOf(w), s.nWriters == 1) <= s.room
    ensures FClose(w, s).w.errno == 0
  {
    hide WriteCloseRecords, Flush, Outgoing, PutStr;
    SealedSize(w, s);
    var sealed := w.(buf := Outgoing(w, s));
    CloseRecordsFit(sealed, s);
    var (w1, s1) := WriteCloseRecords(sealed, s);
    RawFlushFits(w1, s1);
  }

  lemma CloseSize(w: Writer, s: Shared)
    requires Open(w, s)
    ensures |Serialize(CloseRecords(w, s), [])| == CloseCost(LevelOf(w), s.nWriters == 1)
  {
    CloseBytes(w, s);
    SealedSize(w, s);
    hide MakeHeader, MakeEndRequestBody, Outgoing, CloseRecords;
    assert |EofRecord(w, s).Encode()| == HEADER_LEN && |EndRequestRecord(s).Encode()| == HEADER_LEN + 8;
    hide EofRecord, EndRequestRecord;
  }

  lemma CloseExactly(w: Writer, s: Shared)
    requires Open(w, s)
    ensures Exactly(s, FClose(w, s), Closed, CloseCost(LevelOf(w), s.nWriters == 1))
    ensures FClose(w, s).w.errno == 0 ==> FClose(w, s).s.nWriters == s.nWriters - 1
  {
    CloseConserves(w, s);
    CloseSize(w, s);
    CloseSends(w, s);
    if CloseCost(LevelOf(w), s.nWriters == 1) <= s.room {
      CloseWithRoom(w, s);
    }
    hide FClose, CloseCost, CloseRecords, Serialize;
  }

  // ---------- calls and runs ----------

  /** Any call fails if and only if the bytes it needs do not fit. */
  lemma CallExactly(w: Writer, s: Shared, call: Call)
    requires Running(w, s)
    ensures var (l, b) := CallCost(LevelOf(w), s.nWriters == 1, call); Exactly(s, Apply(w, s, call), l, b)
  {
    hide Exactly, PutChar, PutStr, Flush, FClose, PutCost, CloseCost, FlushCost;
    if w.fclosed {
      ClosedIgnores(w, s, call);
      Unchanged(w, s, Apply(w, s, call));
    } else {
      match call {
        case DoPutChar(c) => PutCharExactly(w, s, c);
        case DoPutStr(bs) => PutStrExactly(w, s, bs);
        case DoFlush => FlushExactly(w, s); SameResult(s, Flush(w, s).0, Flush(w, s).1, FFlush(w, s), LevelOf(w));
        case DoClose => CloseExactly(w, s);
      }
    }
  }

  lemma Unchanged(w: Writer, s: Shared, r: Result)
    requires Running(w, s) && r.w == w && r.s == s
    ensures Exactly(s, r, LevelOf(w), 0)
  {
  }

  /** Whether a call reports success does not matter here. */
  lemma SameResult(s: Shared, w1: Writer, s1: Shared, r: Result, l: Level)
    requires l.Holding? && r.w == w1 && r.s == s1
    requires Exactly(s, Result(true, w1, s1), FlushCost(l).0, FlushCost(l).1)
    ensures Exactly(s, r, FlushCost(l).0, FlushCost(l).1)
  {
    hide FlushCost;
  }

  /** Bytes that a run of calls on one of two writers needs. */
  function CallsCost(l: Level, last: bool, calls: seq<Call>): nat
    decreases |calls|
  {
    if calls == [] then 0
    else var (m, b) := CallCost(l, last, calls[0]); b + CallsCost(m, last, calls[1..])
  }

  /** Calls without a close, and then the close: no write fails if and only if all of it fits, and then exactly so
      much is sent. */
  lemma {:induction false} CallsExactly(w: Writer, s: Shared, calls: seq<Call>)
    requires Open(w, s) && NoClose(calls) && s.nWriters != 1
    ensures
      var ran := RunCalls(w, s, calls);
      var closed := FClose(ran.w, ran.s);
      var cost := CallsCost(LevelOf(w), false, calls + [DoClose]);
      && (closed.w.errno == 0 <==> cost <= s.room)
      && (closed.w.errno == 0 ==> closed.s.room == s.room - cost)
    decreases |calls|
  {
    hide FClose, Apply, CloseCost, CallCost;
    if calls == [] {
      assert calls + [DoClose] == [DoClose] && [DoClose][1..] == [];
      CallExactly(w, s, DoClose);
      ApplyClose(w, s);
    } else {
      var r := Apply(w, s, calls[0]);
      assert (calls + [DoClose])[0] == calls[0] && (calls + [DoClose])[1..] == calls[1..] + [DoClose];
      CallExactly(w, s, calls[0]);
      if r.w.errno != 0 {
        RunCallsKeepsError(r.w, r.s, calls[1..]);
        CloseKeepsError(RunCalls(r.w, r.s, calls[1..]).w, RunCalls(r.w, r.s, calls[1..]).s);
      } else {
        StaysOpen(w, s, calls[0]);
        CallsExactly(r.w, r.s, calls[1..]);
      }
    }
  }

  lemma StaysOpen(w: Writer, s: Shared, call: Call)
    requires Open(w, s) && !call.DoClose? && Apply(w, s, call).w.errno == 0
    ensures var r := Apply(w, s, call); Open(r.w, r.s) && r.s.nWriters == s.nWriters
  {
    match call {
      case DoPutChar(c) => PutCharMoves(w, s, c);
      case DoPutStr(bs) => PutStrMoves(w, s, bs);
      case DoFlush => FlushMoves(w, s);
    }
    hide PutChar, PutStr, Flush;
  }

  /** Bytes that a run on both writers of a request needs; the writer that closes last ends the request. */
  function OpsCost(out: Level, err: Level, ops: seq<Op>): nat
    decreases |ops|
  {
    if ops == [] then 0
    else
      match ops[0]
      case OnOut(call) => var (m, b) := CallCost(out, err.Closed?, call); b + OpsCost(m, err, ops[1..])
      case OnErr(call) => var (m, b) := CallCost(err, out.Closed?, call); b + OpsCost(out, m, ops[1..])
      case SetExitStatus(_) => OpsCost(out, err, ops[1..])
  }

  predicate BothRunning(st: Session) {
    && Running(st.out, st.s) && Running(st.err, st.s) && st.s.nWriters == OpenCount(st)
  }

  /** What a step needs; the other writer does not notice. */
  lemma StepExactly(w: Writer, other: Writer, s: Shared, call: Call)
    requires Running(w, s) && Running(other, s)
    requires s.nWriters == (if w.fclosed then 0 else 1) + (if other.fclosed then 0 else 1)
    ensures
      var (l, b) := CallCost(LevelOf(w), other.fclosed, call);
      var r := Apply(w, s, call);
      && (b <= s.room ==>
            && Running(r.w, r.s) && Running(other, r.s) && LevelOf(r.w) == l && r.s.room == s.room - b
            && r.s.nWriters == (if r.w.fclosed then 0 else 1) + (if other.fclosed then 0 else 1))
      && (b > s.room ==> r.w.errno != 0)
  {
    CallExactly(w, s, call);
    hide CallCost, FClose;
    if w.fclosed {
      ClosedIgnores(w, s, call);
    } else if call.DoClose? {
      ApplyClose(w, s);
      CloseSends(w, s);
    } else if Apply(w, s, call).w.errno == 0 {
      SharedKept(w, s, call);
    }
    ClosedCost(LevelOf(w), call);
    hide Apply;
  }

  lemma ClosedCost(l: Level, call: Call)
    ensures l.Closed? ==> CallCost(l, true, call) == CallCost(l, false, call) == (l, 0)
  {
  }

  lemma SharedKept(w: Writer, s: Shared, call: Call)
    requires Open(w, s) && !call.DoClose? && Apply(w, s, call).w.errno == 0
    ensures var r := Apply(w, s, call); r.s == s.(out := r.s.out, room := r.s.room) && !r.w.fclosed
  {
    match call {
      case DoPutChar(c) => PutCharMoves(w, s, c);
      case DoPutStr(bs) => PutStrMoves(w, s, bs);
      case DoFlush => FlushMoves(w, s);
    }
    hide PutChar, PutStr, Flush;
  }

  /** Over every interleaving, no write fails if and only if all that is to be sent fits. */
  lemma {:induction false} OpsExactly(st: Session, ops: seq<Op>)
    requires BothRunning(st)
    ensures
      var end := Run(st, ops);
      var cost := OpsCost(LevelOf(st.out), LevelOf(st.err), ops);
      && (end.out.errno == 0 && end.err.errno == 0 <==> cost <= st.s.room)
      && (cost <= st.s.room ==> end.s.room == st.s.room - cost)
    decreases |ops|
  {
    if ops != [] {
      hide Apply, CallCost, Running;
      var next := Step(st, ops[0]);
      match ops[0] {
        case OnOut(call) => StepExactly(st.out, st.err, st.s, call);
        case OnErr(call) => StepExactly(st.err, st.out, st.s, call);
        case SetExitStatus(status) => StatusIrrelevant(st, status);
      }
      RunningLevels(st);
      if next.out.errno != 0 || next.err.errno != 0 {
        RunKeepsError(next, ops[1..]);
      } else {
        RunningLevels(next);
        OpsExactly(next, ops[1..]);
      }
    }
  }

  lemma StatusIrrelevant(st: Session, status: int)
    requires BothRunning(st)
    ensures BothRunning(Step(st, SetExitStatus(status)))
  {
  }

  lemma RunningLevels(st: Session)
    requires BothRunning(st)
    ensures st.out.Sound() && st.err.Sound() && st.out.errno == 0 && st.err.errno == 0
    ensures LevelOf(st.out).Closed? == st.out.fclosed && LevelOf(st.err).Closed? == st.err.fclosed
  {
  }

  /** From the start of a request: every interleaving whose bytes fit the connection runs without a write error and
      keeps the promise about the wire; any other meets an error. */
  lemma EveryInterleavingThatFits(outSize: nat, errSize: nat, s: Shared, ops: seq<Op>)
    requires outSize % 8 == 0 && 24 <= outSize <= MAX_LENGTH + 1 && errSize % 8 == 0 && 24 <= errSize <= MAX_LENGTH + 1
    requires 0 <= s.requestId < 65536 && s.writeErrno != 0
    ensures
      var start := Start(outSize, errSize, s);
      var end := Run(start, ops);
      var out, err := Holding(STDOUT, outSize - HEADER_LEN, 0, false), Holding(STDERR, errSize - HEADER_LEN, 0, false);
      var cost := OpsCost(out, err, ops);
      && (end.out.errno == 0 && end.err.errno == 0 <==> cost <= s.room)
      && (cost <= s.room ==> SessionInv(end, RunTrace(start, ops, Trace([], [], [], 0)), s.out))
  {
    hide SessionInv, Run, RunTrace, OpsCost;
    OpsExactly(Start(outSize, errSize, s), ops);
    EveryInterleaving(outSize, errSize, s, ops);
  }
}
