/** Which records a writer sends: everything written while no write fails leaves the stream in whole
    records of its own kind, in order and without loss. */
module FcgiEmission {
  import opened Common
  import opened FcgiWire
  import opened FcgiWriterSpec

  /** An open stream without errors. */
  predicate Open(w: Writer, s: Shared) {
    && w.Sound() && !w.raw && !w.closed && !w.fclosed && w.errno == 0
    && 0 <= s.requestId < 65536 && s.writeErrno != 0
  }

  /** The arithmetic behind EmptyBuffProc: whatever is buffered, MakeHeader's assertions hold and the padded
      record fits the buffer exactly up to a multiple of eight. */
  lemma BufferArithmetic(w: Writer, s: Shared)
    requires w.Sound() && !w.raw && !w.fclosed
    ensures HeaderFits(|w.buf|, PaddingFor(|w.buf|))
    ensures HEADER_LEN + |w.buf| + PaddingFor(|w.buf|) <= w.size
    ensures |ContentRecord(w, s).Encode()| % 8 == 0
    ensures 0 <= s.requestId < 65536 ==>
              var h := ContentRecord(w, s).Encode()[..HEADER_LEN];
              HeaderContentLength(h) == |w.buf| && HeaderRequestId(h) == s.requestId && h[6] == PaddingFor(|w.buf|)
  {
    hide MakeHeader, HeaderContentLength, HeaderRequestId;
    var n := |w.buf|;
    assert PaddingFor(n) <= w.size - HEADER_LEN - n;
    if 0 <= s.requestId < 65536 {
      SealedHeader(w, s);
    }
  }

  lemma SealedHeader(w: Writer, s: Shared)
    requires 0 <= s.requestId < 65536 && HeaderFits(|w.buf|, PaddingFor(|w.buf|))
    ensures
      var h := ContentRecord(w, s).Encode()[..HEADER_LEN];
      HeaderContentLength(h) == |w.buf| && HeaderRequestId(h) == s.requestId && h[6] == PaddingFor(|w.buf|)
  {
    var n := |w.buf|;
    HeaderRoundTrip(w.kind, s.requestId, n, PaddingFor(n));
    hide MakeHeader, HeaderContentLength, HeaderRequestId;
    var h := MakeHeader(w.kind, s.requestId, n, PaddingFor(n));
    assert ContentRecord(w, s).Encode()[..HEADER_LEN] == h;
  }

  /** Nonempty records of one stream. */
  predicate DataRecords(rs: seq<Rec>, kind: Byte, id: int) {
    forall i :: 0 <= i < |rs| ==> rs[i].kind == kind && rs[i].id == id && |rs[i].content| > 0 && rs[i].Encodable()
  }

  /** The contents of the records, in order. */
  function Concat(rs: seq<Rec>): Bytes {
    if rs == [] then [] else rs[0].content + Concat(rs[1..])
  }

  lemma {:induction false} ConcatAppend(a: seq<Rec>, b: seq<Rec>)
    ensures Concat(a + b) == Concat(a) + Concat(b)
  {
    if a == [] {
      assert a + b == b;
    } else {
      ConcatAppend(a[1..], b);
      assert (a + b)[0] == a[0] && (a + b)[1..] == a[1..] + b;
      ConcatAssoc(a[0].content, Concat(a[1..]), Concat(b));
    }
  }

  lemma ConcatOne(r: Rec)
    ensures Concat([r]) == r.content
  {
    assert [r][1..] == [];
    assert Concat([r][1..]) == [];
    assert r.content + [] == r.content;
  }

  /** s becomes t by sending rs. */
  predicate Sent(s: Shared, t: Shared, rs: seq<Rec>) {
    t.out == s.out + Serialize(rs, []) && t == s.(out := t.out, room := t.room)
  }

  lemma SentNothing(s: Shared)
    ensures Sent(s, s, [])
  {
    assert s.out + [] == s.out;
  }

  lemma SentMore(s: Shared, t: Shared, u: Shared, a: seq<Rec>, b: seq<Rec>)
    requires Sent(s, t, a) && Sent(t, u, b)
    ensures Sent(s, u, a + b)
  {
    SerializeAppend(a, b, []);
    SerializeRest(a, Serialize(b, []));
    ConcatAssoc(s.out, Serialize(a, []), Serialize(b, []));
  }

  /** The step from (w, s) to (w1, s1) sent rs and took bs from the client: still open, whole records on
      the wire, every byte either sent or still buffered, in order. */
  predicate Moved(w: Writer, s: Shared, w1: Writer, s1: Shared, rs: seq<Rec>, bs: Bytes) {
    && Open(w1, s1) && w1.kind == w.kind && w1.size == w.size
    && Sent(s, s1, rs) && DataRecords(rs, w.kind, s.requestId)
    && w.buf + bs == Concat(rs) + w1.buf
    && w1.any == (w.any || rs != [])
  }

  lemma MovedAgain(w: Writer, s: Shared, w1: Writer, s1: Shared, w2: Writer, s2: Shared,
                   a: seq<Rec>, b: seq<Rec>, x: Bytes, y: Bytes)
    requires Moved(w, s, w1, s1, a, x) && Moved(w1, s1, w2, s2, b, y)
    ensures Moved(w, s, w2, s2, a + b, x + y)
  {
    hide Open;
    SentMore(s, s1, s2, a, b);
    ConcatAppend(a, b);
    assert w.buf + (x + y) == Concat(a + b) + w2.buf by {
      ConcatAssoc(w.buf, x, y);
      ConcatAssoc(Concat(a), w1.buf, y);
      ConcatAssoc(Concat(a), Concat(b), w2.buf);
    }
    hide Sent;
  }

  // ---------- one step ----------

  function FlushRecords(w: Writer, s: Shared): seq<Rec> {
    if |w.buf| == 0 then [] else [ContentRecord(w, s)]
  }

  lemma FlushMoves(w: Writer, s: Shared)
    requires Open(w, s)
    ensures var (w1, s1) := Flush(w, s);
            w1.errno == 0 ==> Moved(w, s, w1, s1, FlushRecords(w, s), []) && |w1.buf| == 0
  {
    hide MakeHeader, Zeros;
    assert w.buf + [] == w.buf;
    if |w.buf| == 0 {
      SentNothing(s);
      assert [] + w.buf == w.buf;
    } else {
      var rec := ContentRecord(w, s);
      SerializeOne(rec, []);
      assert rec.Encode() + [] == rec.Encode();
      ConcatOne(rec);
      assert rec.content + [] == rec.content;
    }
  }

  function PutCharRecords(w: Writer, s: Shared): seq<Rec> {
    if w.Full() then FlushRecords(w, s) else []
  }

  lemma AppendMoves(w: Writer, s: Shared, c: Byte)
    requires Open(w, s) && !w.Full()
    ensures Moved(w, s, w.(buf := w.buf + [c]), s, [], [c])
  {
    SentNothing(s);
    assert [] + (w.buf + [c]) == w.buf + [c];
  }

  lemma PutCharMoves(w: Writer, s: Shared, c: Byte)
    requires Open(w, s)
    ensures var r := PutChar(w, s, c);
            r.w.errno == 0 ==> r.ok && Moved(w, s, r.w, r.s, PutCharRecords(w, s), [c])
  {
    hide Flush, Moved, FlushRecords;
    if !w.Full() {
      AppendMoves(w, s, c);
    } else {
      var (w1, s1) := Flush(w, s);
      FlushMoves(w, s);
      if w1.errno == 0 {
        assert Open(w1, s1) by { FlushKeepsOpen(w, s); }
        AppendMoves(w1, s1, c);
        MovedAgain(w, s, w1, s1, w1.(buf := w1.buf + [c]), s1, FlushRecords(w, s), [], [], [c]);
        assert FlushRecords(w, s) + [] == FlushRecords(w, s) && [] + [c] == [c];
      }
    }
  }

  lemma FlushKeepsOpen(w: Writer, s: Shared)
    requires Open(w, s)
    ensures var (w1, s1) := Flush(w, s); w1.errno == 0 ==> Open(w1, s1) && |w1.buf| == 0
  {
    FlushMoves(w, s);
    hide Flush;
  }

  function PutStrRecords(w: Writer, s: Shared, bs: Bytes): seq<Rec>
    decreases |bs|
  {
    if |bs| == 0 then []
    else
      var r := PutChar(w, s, bs[0]);
      PutCharRecords(w, s) + PutStrRecords(r.w, r.s, bs[1..])
  }

  lemma FlushKeepsError(w: Writer, s: Shared)
    requires w.errno != 0
    ensures Flush(w, s).0.errno == w.errno
  {
    hide Outgoing, Padded;
  }

  lemma {:induction false} PutKeepsError(w: Writer, s: Shared, bs: Bytes)
    requires w.errno != 0
    ensures PutStr(w, s, bs).w.errno == w.errno
    decreases |bs|
  {
    hide Flush;
    if |bs| > 0 {
      FlushKeepsError(w, s);
      var r := PutChar(w, s, bs[0]);
      if r.ok {
        PutKeepsError(r.w, r.s, bs[1..]);
      }
    }
  }

  lemma {:induction false} PutStrMoves(w: Writer, s: Shared, bs: Bytes)
    requires Open(w, s)
    ensures var r := PutStr(w, s, bs);
            r.w.errno == 0 ==> r.ok && Moved(w, s, r.w, r.s, PutStrRecords(w, s, bs), bs)
    decreases |bs|
  {
    hide PutChar, PutCharRecords;
    if |bs| == 0 {
      NothingMoved(w, s);
      assert bs == [];
    } else {
      var r := PutChar(w, s, bs[0]);
      PutCharMoves(w, s, bs[0]);
      if r.w.errno != 0 {
        PutKeepsError(r.w, r.s, bs[1..]);
      } else {
        PutStrMoves(r.w, r.s, bs[1..]);
        var t := PutStr(r.w, r.s, bs[1..]);
        if t.w.errno == 0 {
          MovedAgain(w, s, r.w, r.s, t.w, t.s, PutCharRecords(w, s), PutStrRecords(r.w, r.s, bs[1..]), [bs[0]],
                     bs[1..]);
          assert [bs[0]] + bs[1..] == bs;
        }
      }
      hide Moved;
    }
  }

  lemma NothingMoved(w: Writer, s: Shared)
    requires Open(w, s)
    ensures Moved(w, s, w, s, [], [])
  {
    SentNothing(s);
    assert w.buf + [] == [] + w.buf;
  }

  // ---------- closing ----------

  /** The records that closing sends: the rest of the content, the end of the stream, and the end of the
      request if this was its last writer. */
  function CloseRecords(w: Writer, s: Shared): seq<Rec> {
    FlushRecords(w, s)
    + (if NeedsEof(w) then [EofRecord(w, s)] else [])
    + (if s.nWriters == 1 then [EndRequestRecord(s)] else [])
  }

  /** In raw mode the buffer only delays bytes. */
  predicate Delayed(w: Writer, s: Shared, w1: Writer, s1: Shared, bs: Bytes) {
    && w1.Sound() && w1.raw && !w1.closed && !w1.fclosed && w1.errno == 0
    && s1.out + w1.buf == s.out + w.buf + bs
    && s1 == s.(out := s1.out, room := s1.room)
  }

  predicate RawOpen(w: Writer, s: Shared) {
    w.Sound() && w.raw && !w.closed && !w.fclosed && w.errno == 0 && s.writeErrno != 0
  }

  lemma RawFlush(w: Writer, s: Shared)
    requires RawOpen(w, s)
    ensures var (w1, s1) := Flush(w, s);
            w1.errno == 0 ==> Delayed(w, s, w1, s1, []) && |w1.buf| == 0
  {
    assert s.out + w.buf + [] == s.out + w.buf;
    if |w.buf| > 0 {
      assert s.out + w.buf + [] == s.out + w.buf;
    }
  }

  lemma RawPutChar(w: Writer, s: Shared, c: Byte)
    requires RawOpen(w, s)
    ensures var r := PutChar(w, s, c);
            r.w.errno == 0 ==> r.ok && Delayed(w, s, r.w, r.s, [c])
  {
    hide Flush;
    RawFlush(w, s);
    if !w.Full() {
      ConcatAssoc(s.out, w.buf, [c]);
    } else {
      var (w1, s1) := Flush(w, s);
      if w1.errno == 0 {
        ConcatAssoc(s1.out, w1.buf, [c]);
        assert s.out + w.buf + [] == s.out + w.buf;
      }
    }
  }

  lemma {:induction false} RawPutStr(w: Writer, s: Shared, bs: Bytes)
    requires RawOpen(w, s)
    ensures var r := PutStr(w, s, bs);
            r.w.errno == 0 ==> r.ok && Delayed(w, s, r.w, r.s, bs)
    decreases |bs|
  {
    hide PutChar;
    if |bs| == 0 {
      assert s.out + w.buf + bs == s.out + w.buf;
    } else {
      var r := PutChar(w, s, bs[0]);
      RawPutChar(w, s, bs[0]);
      if r.w.errno != 0 {
        PutKeepsError(r.w, r.s, bs[1..]);
      } else {
        RawPutStr(r.w, r.s, bs[1..]);
        ConcatAssoc(s.out + w.buf, [bs[0]], bs[1..]);
        assert [bs[0]] + bs[1..] == bs;
      }
    }
  }

  /** WriteCloseRecords adds the end of the stream and of the request behind what is buffered. */
  lemma CloseRecordsAdded(w: Writer, s: Shared)
    requires RawOpen(w.(raw := true), s)
    ensures
      var (w1, s1) := WriteCloseRecords(w, s);
      var added := (if NeedsEof(w) then EofRecord(w, s).Encode() else [])
                   + (if s.nWriters == 1 then EndRequestRecord(s).Encode() else []);
      w1.errno == 0 ==>
        && RawOpen(w1, s1)
        && s1.out + w1.buf == s.out + w.buf + added
        && s1 == s.(out := s1.out, room := s1.room, nWriters := s.nWriters - 1)
  {
    hide PutStr;
    var raw := w.(raw := true);
    var eof, end := EofRecord(w, s).Encode(), EndRequestRecord(s).Encode();
    hide EofRecord, EndRequestRecord;
    var r := if NeedsEof(w) then PutStr(raw, s, eof) else Result(true, raw, s);
    assert s.out + w.buf + [] == s.out + w.buf;
    if NeedsEof(w) {
      RawPutStr(raw, s, eof);
    }
    if r.w.errno != 0 {
      if r.s.nWriters == 1 { PutKeepsError(r.w, r.s, end); }
    } else {
      var sent := if NeedsEof(w) then eof else [];
      assert r.s.out + r.w.buf == s.out + w.buf + sent;
      assert sent + [] == sent;
      if r.s.nWriters == 1 {
        RawPutStr(r.w, r.s, end);
        ConcatAssoc(s.out + w.buf, sent, end);
      }
    }
  }

  /** The sealed buffer fits, with header and padding. */
  lemma SealedFits(w: Writer, s: Shared)
    requires Open(w, s)
    ensures |Outgoing(w, s)| <= w.size && (|Outgoing(w, s)| > 0 <==> |w.buf| > 0)
  {
    hide MakeHeader;
  }

  lemma CloseBytes(w: Writer, s: Shared)
    requires Open(w, s)
    ensures
      Serialize(CloseRecords(w, s), []) ==
        Outgoing(w, s) + ((if NeedsEof(w) then EofRecord(w, s).Encode() else [])
                          + (if s.nWriters == 1 then EndRequestRecord(s).Encode() else []))
  {
    hide NeedsEof;
    var content, eof, end := ContentRecord(w, s), EofRecord(w, s), EndRequestRecord(s);
    hide ContentRecord, EofRecord, EndRequestRecord;
    var a := FlushRecords(w, s);
    var b := if NeedsEof(w) then [eof] else [];
    var c := if s.nWriters == 1 then [end] else [];
    SerializeOne(content, []);
    SerializeOne(eof, []);
    SerializeOne(end, []);
    assert content.Encode() + [] == content.Encode() && eof.Encode() + [] == eof.Encode()
           && end.Encode() + [] == end.Encode();
    SerializeAppend(a + b, c, []);
    SerializeAppend(a, b, Serialize(c, []));
    SerializeRest(a, Serialize(b, Serialize(c, [])));
    SerializeRest(b, Serialize(c, []));
  }

  /** Closing without a write error puts the closing records, whole and in order, on the wire. */
  lemma CloseSends(w: Writer, s: Shared)
    requires Open(w, s)
    ensures
      var r := FClose(w, s);
      r.w.errno == 0 ==>
        && r.ok && r.w == w.(buf := [], any := r.w.any, raw := true, closed := true, fclosed := true)
        && r.s.out == s.out + Serialize(CloseRecords(w, s), [])
        && r.s == s.(out := r.s.out, room := r.s.room, nWriters := s.nWriters - 1)
  {
    SealedFits(w, s);
    CloseBytes(w, s);
    hide Outgoing, CloseRecords, WriteCloseRecords, Flush;
    var sealed := w.(buf := Outgoing(w, s));
    CloseRecordsAdded(sealed, s);
    var (w1, s1) := WriteCloseRecords(sealed, s);
    var added := (if NeedsEof(w) then EofRecord(w, s).Encode() else [])
                 + (if s.nWriters == 1 then EndRequestRecord(s).Encode() else []);
    assert NeedsEof(sealed) == NeedsEof(w) && EofRecord(sealed, s) == EofRecord(w, s);
    WriteCloseKeeps(sealed, s);
    FlushRawKeeps(w1, s1);
    if w1.errno != 0 {
      FlushKeepsError(w1, s1);
    } else {
      RawFlush(w1, s1);
      ConcatAssoc(s.out, Outgoing(w, s), added);
      assert s1.out + w1.buf + [] == s1.out + w1.buf;
      assert Flush(w1, s1).1.out + [] == Flush(w1, s1).1.out;
    }
  }

  /** The fields a raw writer never changes. */
  predicate SameRaw(w: Writer, w1: Writer) {
    w1 == w.(buf := w1.buf, any := w1.any, raw := true, closed := w1.closed, errno := w1.errno)
  }

  lemma FlushRawKeeps(w: Writer, s: Shared)
    requires w.raw
    ensures SameRaw(w, Flush(w, s).0)
  {
  }

  lemma {:induction false} PutRawKeeps(w: Writer, s: Shared, bs: Bytes)
    requires w.raw
    ensures SameRaw(w, PutStr(w, s, bs).w)
    decreases |bs|
  {
    hide Flush;
    if |bs| > 0 {
      FlushRawKeeps(w, s);
      var r := PutChar(w, s, bs[0]);
      if r.ok {
        PutRawKeeps(r.w, r.s, bs[1..]);
      }
    }
  }

  lemma WriteCloseKeeps(w: Writer, s: Shared)
    ensures SameRaw(w.(raw := true), WriteCloseRecords(w, s).0)
  {
    hide PutStr, EofRecord, EndRequestRecord;
    var raw := w.(raw := true);
    PutRawKeeps(raw, s, EofRecord(w, s).Encode());
    var r := if NeedsEof(w) then PutStr(raw, s, EofRecord(w, s).Encode()) else Result(true, raw, s);
    PutRawKeeps(r.w, r.s, EndRequestRecord(s).Encode());
  }
}
