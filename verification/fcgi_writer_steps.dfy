/** Facts about single steps of a writer. */
module FcgiWriterSteps {
  import opened Common
  import opened FcgiWire
  import opened FcgiWriterSpec

  /** Header, content and padding together are the record. */
  lemma SealedBytes(w: Writer, s: Shared)
    requires !w.raw && |w.buf| > 0
    ensures MakeHeader(w.kind, s.requestId, |w.buf|, PaddingFor(|w.buf|)) + Padded(w) == Outgoing(w, s)
  {
    hide MakeHeader;
    var z := Zeros(PaddingFor(|w.buf|));
    ConcatAssoc(MakeHeader(w.kind, s.requestId, |w.buf|, PaddingFor(|w.buf|)), w.buf, z);
  }

  lemma SealedNothing(w: Writer, s: Shared)
    requires |w.buf| == 0
    ensures Outgoing(w, s) == []
  {
  }

  /** Bytes that fit are appended in one piece. */
  lemma {:induction false} PutFits(w: Writer, s: Shared, bs: Bytes)
    requires |bs| == 0 || (!w.fclosed && |w.buf| + |bs| <= w.Capacity())
    ensures PutStr(w, s, bs) == Result(true, w.(buf := w.buf + bs), s)
    decreases |bs|
  {
    hide Flush;
    if |bs| == 0 {
      assert w.buf + bs == w.buf;
    } else {
      PutFits(w.(buf := w.buf + [bs[0]]), s, bs[1..]);
      assert w.buf + [bs[0]] + bs[1..] == w.buf + bs;
    }
  }

  /** Writing a + b is writing a and then, if that succeeded, b. */
  lemma {:induction false} PutSplit(w: Writer, s: Shared, a: Bytes, b: Bytes)
    ensures
      var r := PutStr(w, s, a);
      PutStr(w, s, a + b) == if r.ok then PutStr(r.w, r.s, b) else r
    decreases |a|
  {
    hide PutChar;
    if |a| == 0 {
      assert a + b == b;
    } else {
      var r := PutChar(w, s, a[0]);
      assert (a + b)[0] == a[0] && (a + b)[1..] == a[1..] + b;
      if r.ok {
        PutSplit(r.w, r.s, a[1..], b);
      }
    }
  }

  /** An emptied buffer has room, or the stream is closed. */
  lemma FlushMakesRoom(w: Writer, s: Shared)
    requires w.Sound() && !w.fclosed
    ensures
      var (w1, s1) := Flush(w, s);
      && w1.Sound() && !w1.fclosed && w1.raw == w.raw && w1.size == w.size && w1.kind == w.kind
      && (w.closed ==> w1.closed) && (w1.Full() ==> w1.closed)
  {
    hide MakeHeader, Zeros;
    assert |w.buf| % 8 == 0 ==> PaddingFor(|w.buf|) == 0;
  }

  /** Writing into a full buffer is writing into the emptied one. */
  lemma PutAfterFlush(w: Writer, s: Shared, bs: Bytes)
    requires w.Sound() && w.Full() && !w.closed && |bs| > 0
    ensures var (w1, s1) := Flush(w, s);
            PutStr(w, s, bs) == PutStr(w1, s1, bs)
  {
    FlushMakesRoom(w, s);
    hide Flush;
  }

  lemma PutToClosed(w: Writer, s: Shared, bs: Bytes)
    requires w.closed && w.Full() && |bs| > 0
    ensures PutStr(w, s, bs) == Result(false, w, s)
  {
  }

  lemma EofBytes(w: Writer, s: Shared)
    ensures EofRecord(w, s).Encode() == MakeHeader(w.kind, s.requestId, 0, 0)
  {
    hide MakeHeader;
    assert MakeHeader(w.kind, s.requestId, 0, 0) + [] + [] == MakeHeader(w.kind, s.requestId, 0, 0);
  }

  lemma EndRequestBytes(s: Shared)
    ensures EndRequestRecord(s).Encode() ==
            MakeHeader(END_REQUEST, s.requestId, 8, 0) + MakeEndRequestBody(s.appStatus, REQUEST_COMPLETE)
  {
    hide MakeHeader, MakeEndRequestBody;
    var bs := MakeHeader(END_REQUEST, s.requestId, 8, 0) + MakeEndRequestBody(s.appStatus, REQUEST_COMPLETE);
    assert bs + [] == bs;
  }
}
