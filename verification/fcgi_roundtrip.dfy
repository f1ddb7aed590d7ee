/** A writer and a reader of the same stream, connected. */
module FcgiRoundTrip {
  import opened Common
  import opened FcgiWire
  import R = FcgiReaderSpec
  import D = FcgiDemux
  import opened FcgiWriterSpec
  import opened FcgiWriterSteps
  import opened FcgiEmission
  import opened FcgiSession

  /** Calls on one writer, in order. */
  function RunCalls(w: Writer, s: Shared, calls: seq<Call>): Result
    decreases |calls|
  {
    if calls == [] then Result(w.errno == 0, w, s)
    else var r := Apply(w, s, calls[0]); RunCalls(r.w, r.s, calls[1..])
  }

  /** The same calls with every string put byte by byte. */
  function ByteByByte(calls: seq<Call>): seq<Call> {
    if calls == [] then []
    else (if calls[0].DoPutStr? then Chars(calls[0].bs) else [calls[0]]) + ByteByByte(calls[1..])
  }

  function Chars(bs: Bytes): (calls: seq<Call>)
    ensures |calls| == |bs| && forall i :: 0 <= i < |bs| ==> calls[i] == DoPutChar(bs[i])
  {
    seq(|bs|, i requires 0 <= i < |bs| => DoPutChar(bs[i]))
  }

  lemma {:induction false} RunCallsAppend(w: Writer, s: Shared, a: seq<Call>, b: seq<Call>)
    ensures var r := RunCalls(w, s, a); RunCalls(w, s, a + b) == RunCalls(r.w, r.s, b)
    decreases |a|
  {
    hide Apply;
    if a == [] {
      assert a + b == b;
    } else {
      assert (a + b)[0] == a[0] && (a + b)[1..] == a[1..] + b;
      var r := Apply(w, s, a[0]);
      RunCallsAppend(r.w, r.s, a[1..], b);
    }
  }

  lemma FailedPutIsStuck(w: Writer, s: Shared, c: Byte)
    requires w.Sound() && !PutChar(w, s, c).ok
    ensures var r := PutChar(w, s, c); r.w.Sound() && r.w.closed && r.w.Full()
  {
    if !w.fclosed {
      FlushMakesRoom(w, s);
    }
    hide Flush;
  }

  lemma {:induction false} CharsAreStr(w: Writer, s: Shared, bs: Bytes)
    requires w.Sound()
    ensures
      var r, t := PutStr(w, s, bs), RunCalls(w, s, Chars(bs));
      r.w == t.w && r.s == t.s
    decreases |bs|
  {
    hide PutChar;
    if |bs| > 0 {
      var r := PutChar(w, s, bs[0]);
      assert Chars(bs)[1..] == Chars(bs[1..]);
      PutKeepsSound(w, s, [bs[0]]);
      assert [bs[0]][1..] == [] && PutStr(w, s, [bs[0]]).w == r.w;
      CharsAreStr(r.w, r.s, bs[1..]);
      if !r.ok && |bs| > 1 {
        FailedPutIsStuck(w, s, bs[0]);
        PutToClosed(r.w, r.s, bs[1..]);
      }
    }
  }

  /** The wire, record boundaries included, and the stream depend only on the bytes and the places of the flushes and
      the close, not on how the bytes are cut into strings; write errors included. */
  lemma {:induction false} SplittingDoesNotMatter(w: Writer, s: Shared, calls: seq<Call>)
    requires w.Sound() && (w.raw ==> w.fclosed)
    ensures
      var r, t := RunCalls(w, s, calls), RunCalls(w, s, ByteByByte(calls));
      r.w == t.w && r.s == t.s
    decreases |calls|
  {
    if calls != [] {
      CallKeepsSound(w, s, calls[0]);
      var r := Apply(w, s, calls[0]);
      SplittingDoesNotMatter(r.w, r.s, calls[1..]);
      var first := if calls[0].DoPutStr? then Chars(calls[0].bs) else [calls[0]];
      RunCallsAppend(w, s, first, ByteByByte(calls[1..]));
      hide PutStr, FClose, FFlush, PutChar;
      if calls[0].DoPutStr? {
        CharsAreStr(w, s, calls[0].bs);
      } else {
        assert first[1..] == [] && RunCalls(w, s, first).w == r.w;
      }
    }
  }

  /** The bytes that calls without a close put. */
  function PutBytes(calls: seq<Call>): Bytes {
    if calls == [] then []
    else
      (match calls[0]
       case DoPutChar(c) => [c]
       case DoPutStr(bs) => bs
       case _ => []) + PutBytes(calls[1..])
  }

  predicate NoClose(calls: seq<Call>) {
    forall i :: 0 <= i < |calls| ==> !calls[i].DoClose?
  }

  lemma {:induction false} RunCallsKeepsError(w: Writer, s: Shared, calls: seq<Call>)
    requires w.errno != 0
    ensures RunCalls(w, s, calls).w.errno != 0
    decreases |calls|
  {
    hide Apply;
    if calls != [] {
      CallKeepsError(w, s, calls[0]);
      var r := Apply(w, s, calls[0]);
      RunCallsKeepsError(r.w, r.s, calls[1..]);
    }
  }

  /** The records that a run of calls leaves on the wire. */
  lemma {:induction false} RunCallsSends(w: Writer, s: Shared, calls: seq<Call>, rs: seq<Rec>, put: Bytes, base: Bytes)
    returns (all: seq<Rec>)
    requires NoClose(calls) && StreamInv(w, s, rs, put) && !w.fclosed
    requires s.out == base + Serialize(rs, [])
    requires RunCalls(w, s, calls).w.errno == 0
    ensures
      var r := RunCalls(w, s, calls);
      && StreamInv(r.w, r.s, all, put + PutBytes(calls)) && !r.w.fclosed && r.w.kind == w.kind
      && r.s.out == base + Serialize(all, [])
      && r.s == s.(out := r.s.out, room := r.s.room)
    decreases |calls|
  {
    hide Apply, CallRecords, StreamInv;
    if calls == [] {
      all := rs;
      assert put + [] == put;
    } else {
      var r := Apply(w, s, calls[0]);
      if r.w.errno != 0 {
        RunCallsKeepsError(r.w, r.s, calls[1..]);
      }
      CallKeeps(w, s, calls[0], rs, put);
      var more := CallRecords(w, s, calls[0]);
      assert EndRecords(w, s, calls[0]) == [];
      assert more + [] == more;
      OutputGrows(base, rs, more);
      all := RunCallsSends(r.w, r.s, calls[1..], rs + more, put + Taken(w, calls[0]), base);
      ConcatAssoc(put, Taken(w, calls[0]), PutBytes(calls[1..]));
    }
  }

  /** FCGX_CreateWriter: a writer count of two keeps END_REQUEST from being sent. */
  function CreateWriter(kind: Byte, size: nat): Writer {
    Writer(kind, size, [], false, false, false, false, 0)
  }

  lemma {:induction false} DataIsItsContents(rs: seq<Rec>, kind: Byte, id: int)
    requires DataRecords(rs, kind, id) && kind != BEGIN_REQUEST && id != 0
    ensures D.AllLawful(rs, kind, id)
    ensures D.Contents(rs, kind, id) == Concat(rs)
    ensures D.Answers(rs, id, false) == []
    decreases |rs|
  {
    if rs != [] {
      DataIsItsContents(rs[1..], kind, id);
      assert !D.SkipAfter(rs[0], id, false);
      assert [] + D.Answers(rs[1..], id, false) == D.Answers(rs[1..], id, false);
    }
  }

  /** Whatever is put to a writer with any mixture of PutChar, PutStr and FFlush before FClose, a reader of the
      same type and request reads exactly that and then the end, with error 0 and nothing of what follows
      consumed; the reads may cut the wire anywhere, because the reader value does not mention them. */
  lemma RoundTrip(kind: Byte, size: nat, s: Shared, calls: seq<Call>, wire: Bytes, r: R.Reader, rest: Bytes)
    requires kind != BEGIN_REQUEST && kind != STDERR
    requires size % 8 == 0 && 24 <= size <= MAX_LENGTH + 1
    requires 0 < s.requestId < 65536 && s.writeErrno != 0 && s.nWriters == 2 && NoClose(calls)
    requires
      var ran := RunCalls(CreateWriter(kind, size), s, calls);
      var closed := FClose(ran.w, ran.s);
      && closed.w.errno == 0
      && closed.s.out == s.out + wire
      && D.Idle(r) && !r.skip && r.kind == kind && r.requestId == s.requestId
      && r.p == wire + rest
    ensures
      var (data, fin) := R.Drain(r);
      && data == PutBytes(calls)
      && fin.closed && !fin.aborted && fin.errno == 0 && fin.p == rest && fin.out == r.out
  {
    hide FClose, R.Drain, Apply, CallRecords, RunCalls;
    var w := CreateWriter(kind, size);
    var ran := RunCalls(w, s, calls);
    var closed := FClose(ran.w, ran.s);
    assert [] + w.buf == [] && s.out + [] == s.out && [] + PutBytes(calls) == PutBytes(calls);
    if ran.w.errno != 0 {
      CloseKeepsError(ran.w, ran.s);
    }
    var sent := RunCallsSends(w, s, calls, [], [], s.out);
    assert closed == Apply(ran.w, ran.s, DoClose) by { ApplyClose(ran.w, ran.s); }
    CallKeeps(ran.w, ran.s, DoClose, sent, PutBytes(calls));
    var all := sent + CallRecords(ran.w, ran.s, DoClose);
    assert EndRecords(ran.w, ran.s, DoClose) == [];
    assert CallRecords(ran.w, ran.s, DoClose) + [] == CallRecords(ran.w, ran.s, DoClose);
    assert PutBytes(calls) + [] == PutBytes(calls);
    OutputGrows(s.out, sent, CallRecords(ran.w, ran.s, DoClose));
    assert wire == (s.out + wire)[|s.out|..] == Serialize(all, []);
    assert ClosedShape(all, kind, s.requestId, PutBytes(calls));
    WireIsRead(all, kind, PutBytes(calls), r, rest);
  }

  lemma ApplyClose(w: Writer, s: Shared)
    ensures Apply(w, s, DoClose) == FClose(w, s)
  {
    hide FClose;
  }

  lemma WireIsRead(all: seq<Rec>, kind: Byte, put: Bytes, r: R.Reader, rest: Bytes)
    requires kind != BEGIN_REQUEST && kind != STDERR && 0 < r.requestId < 65536
    requires ClosedShape(all, kind, r.requestId, put)
    requires D.Idle(r) && !r.skip && r.kind == kind && r.p == Serialize(all, []) + rest
    ensures
      var (data, fin) := R.Drain(r);
      data == put && fin.closed && !fin.aborted && fin.errno == 0 && fin.p == rest && fin.out == r.out
  {
    hide R.Drain;
    var data := all[..|all| - 1];
    var end := D.EndOfStream(kind, r.requestId, []);
    assert all == data + [end];
    SerializeRest(all, rest);
    DataIsItsContents(data, kind, r.requestId);
    D.StreamContentsArrive(r, data, [], rest);
    assert [] + rest == rest && r.out + [] == r.out;
  }
}
