/** One conversation with a web server, byte by byte: what the constants and the layouts come to. */
module FcgiConversation {
  import opened Common
  import opened FcgiWire
  import opened FcgiParams
  import opened FcgiReaderSpec
  import opened FcgiDemux
  import opened FcgiAnswers
  import opened FcgiAcceptSpec
  import W = FcgiWriterSpec
  import P = FcgiWriterSteps
  import E = FcgiEmission
  import S = FcgiSession

  lemma RoleNames()
    ensures RESPONDER_NAME == Ascii("RESPONDER")
    ensures AUTHORIZER_NAME == Ascii("AUTHORIZER")
    ensures FILTER_NAME == Ascii("FILTER")
    ensures ROLE_PREFIX == Ascii("FCGI_ROLE=")
  {
  }

  /** The entry of each role, and of no other. */
  lemma RoleEntries(role: int)
    ensures RoleEntry(1) == Some(Ascii("FCGI_ROLE=") + Ascii("RESPONDER"))
    ensures RoleEntry(2) == Some(Ascii("FCGI_ROLE=") + Ascii("AUTHORIZER"))
    ensures RoleEntry(3) == Some(Ascii("FCGI_ROLE=") + Ascii("FILTER"))
    ensures role != 1 && role != 2 && role != 3 ==> RoleEntry(role) == None
  {
    hide Ascii;
    RoleNames();
  }

  // ---------- a request ----------

  /** Request 258 of a filter is opened; then the pair A=B, the input I and the data D, each stream with its end. */
  function FilterBytes(): Bytes {
    [1, 1, 1, 2, 0, 8, 0, 0, 0, 3, 1, 0, 0, 0, 0, 0]
    + ([1, 4, 1, 2, 0, 4, 0, 0, 1, 1, 65, 66] + ([1, 4, 1, 2, 0, 0, 0, 0]
    + ([1, 5, 1, 2, 0, 1, 0, 0, 73] + ([1, 5, 1, 2, 0, 0, 0, 0]
    + ([1, 8, 1, 2, 0, 1, 0, 0, 68] + [1, 8, 1, 2, 0, 0, 0, 0])))))
  }

  const PARAMS_RECORD: Rec := Rec(PARAMS, 258, [1, 1, 65, 66], [])
  const INPUT_RECORD: Rec := Rec(STDIN, 258, [73], [])
  const DATA_RECORD: Rec := Rec(DATA, 258, [68], [])

  const FILTER_REQUEST: Sent :=
    Sent([], 258, FILTER, true, [0, 0, 0, 0, 0], [Pair([65], [66], false, false)], [PARAMS_RECORD], [INPUT_RECORD],
         [DATA_RECORD], [])

  lemma OneRecordStream(rec: Rec, end: Bytes, rest: Bytes)
    requires end == EndOfStream(rec.kind, rec.id, []).Encode()
    ensures Serialize(StreamOf([rec], rec.kind, rec.id), rest) == rec.Encode() + (end + rest)
  {
    hide Rec.Encode;
    var e := EndOfStream(rec.kind, rec.id, []);
    SerializeAppend([rec], [e], rest);
    SerializeOne(e, rest);
    SerializeOne(rec, e.Encode() + rest);
  }

  lemma OneRecordSays(rec: Rec)
    requires rec.kind != BEGIN_REQUEST && rec.id != 0 && rec.content != [] && rec.Encodable()
    ensures Undisturbed([rec], rec.kind, rec.id) && Contents([rec], rec.kind, rec.id) == rec.content
    ensures Answers([rec], rec.id, false) == []
  {
    assert [rec][1..] == [];
    assert Contents([rec][1..], rec.kind, rec.id) == [];
    assert rec.content + [] == rec.content;
    assert Answers([rec][1..], rec.id, SkipAfter(rec, rec.id, false)) == [];
  }

  lemma RecordBytes(kind: Byte, content: Bytes)
    requires |content| < 256
    ensures Rec(kind, 258, content, []).Encode() == [1, kind, 1, 2, 0, |content|, 0, 0] + content
    ensures EndOfStream(kind, 258, []).Encode() == [1, kind, 1, 2, 0, 0, 0, 0]
  {
  }

  lemma FilterOpens()
    ensures BeginRecordOf(258, FILTER, true, [0, 0, 0, 0, 0], []).Encode() ==
              [1, 1, 1, 2, 0, 8, 0, 0, 0, 3, 1, 0, 0, 0, 0, 0]
  {
    RecordBytes(BEGIN_REQUEST, [0, 3, 1, 0, 0, 0, 0, 0]);
    hide Rec.Encode;
    assert [0, 3, 1] + [0, 0, 0, 0, 0] == [0, 3, 1, 0, 0, 0, 0, 0];
  }

  lemma FilterStreams()
    ensures PARAMS_RECORD.Encode() == [1, 4, 1, 2, 0, 4, 0, 0, 1, 1, 65, 66]
    ensures INPUT_RECORD.Encode() == [1, 5, 1, 2, 0, 1, 0, 0, 73]
    ensures DATA_RECORD.Encode() == [1, 8, 1, 2, 0, 1, 0, 0, 68]
  {
    RecordBytes(PARAMS, [1, 1, 65, 66]);
    RecordBytes(STDIN, [73]);
    RecordBytes(DATA, [68]);
    hide Rec.Encode;
  }

  lemma FilterProper()
    ensures FILTER_REQUEST.Proper() && FILTER_REQUEST.Replies() == 0
    ensures Entries(FILTER_REQUEST.ps) == [[65, 61, 66]]
    ensures Contents([INPUT_RECORD], STDIN, 258) == [73] && Contents([DATA_RECORD], DATA, 258) == [68]
  {
    OneRecordSays(PARAMS_RECORD);
    OneRecordSays(INPUT_RECORD);
    OneRecordSays(DATA_RECORD);
    hide Undisturbed, Contents, Answers;
    var ps := FILTER_REQUEST.ps;
    assert ps[1..] == [] && EncodePairs(ps[1..], []) == [] && Entries(ps[1..]) == [];
    assert ps[0].Encode() == [1, 1, 65, 66] && [1, 1, 65, 66] + [] == [1, 1, 65, 66];
    FilterEntry(ps);
    NoAnswers();
  }

  lemma FilterEntry(ps: seq<Pair>)
    requires ps == [Pair([65], [66], false, false)]
    ensures Entries(ps) == [[65, 61, 66]]
  {
    assert ps[1..] == [] && Entries(ps[1..]) == [];
    assert ps[0].Entry() == [65, 61, 66];
  }

  lemma NoAnswers()
    ensures Answers([], 0, false) == []
  {
  }

  lemma FilterWire()
    requires FILTER_REQUEST.Proper()
    ensures FILTER_REQUEST.Wire() == FilterBytes()
  {
    hide Rec.Encode, EndOfStream, BeginRecordOf, Sent.Proper;
    var sent := FILTER_REQUEST;
    FilterOpens();
    FilterStreams();
    RecordBytes(PARAMS, []);
    RecordBytes(STDIN, []);
    RecordBytes(DATA, []);
    OneRecordStream(DATA_RECORD, EndOfStream(DATA, 258, []).Encode(), []);
    OneRecordStream(INPUT_RECORD, EndOfStream(STDIN, 258, []).Encode(), sent.BehindInput());
    OneRecordStream(PARAMS_RECORD, EndOfStream(PARAMS, 258, []).Encode(), sent.BehindParams());
    hide Serialize, StreamOf;
    assert EndOfStream(DATA, 258, []).Encode() + [] == EndOfStream(DATA, 258, []).Encode();
  }

  /** The environment of that request, and what it reads. */
  ghost predicate AcceptedAsFilter(a: Attempt) {
    match a
    case Accepted(entries, r) =>
      && entries == [Ascii("FCGI_ROLE=") + Ascii("FILTER"), Ascii("A=B")]
      && r.requestId == 258 && r.keep
      && Drain(r).0 == [73] && Drain(r).1.closed && Drain(r).1.errno == 0
      && Drain(SetReaderType(Drain(r).1, 8)).0 == [68]
    case _ => false
  }

  lemma PairAB()
    ensures Ascii("A=B") == [65, 61, 66]
  {
  }

  /** These bytes are accepted as a filter's request, and its two streams are read. */
  lemma FilterAccepted(r: Reader)
    requires Fresh(r) && r.p == FilterBytes()
    ensures AcceptedAsFilter(Attempted(r))
  {
    hide Drain, Sent.Proper, Sent.Wire, Attempted, FilterBytes, Contents, Ascii, RoleEntry;
    FilterProper();
    FilterWire();
    RoleEntries(FILTER);
    PairAB();
    WholeConnection(FILTER_REQUEST, r);
  }

  // ---------- a response ----------

  /** A record of request 258, padded to a multiple of eight bytes. */
  function Padded(kind: Byte, content: Bytes): Bytes
    requires |content| < 65536
  {
    var padding := (8 - |content| % 8) % 8;
    [1, kind, 1, 2, |content| / 256, |content| % 256, padding, 0] + (content + Zeros(padding))
  }

  /** The response with some output, some error output and an exit status, as FCGX_Finish_r closes the two streams. */
  function ResponseBytes(output: Bytes, error: Bytes, status: Byte): Bytes
    requires |output| < 65536 && |error| < 65536
  {
    Padded(7, error) + [1, 7, 1, 2, 0, 0, 0, 0]
    + (Padded(6, output) + ([1, 6, 1, 2, 0, 0, 0, 0] + [1, 3, 1, 2, 0, 8, 0, 0, 0, 0, 0, status, 0, 0, 0, 0]))
  }

  lemma PaddingIs(n: nat)
    ensures W.PaddingFor(n) == (8 - n % 8) % 8
  {
  }

  lemma ContentBytes(w: W.Writer, s: W.Shared)
    requires s.requestId == 258 && !w.raw && 0 < |w.buf| < 65536
    ensures W.Outgoing(w, s) == Padded(w.kind, w.buf)
  {
    var n, padding := |w.buf|, W.PaddingFor(|w.buf|);
    PaddingIs(n);
    hide W.PaddingFor;
    assert n / 256 % 256 == n / 256;
    assert MakeHeader(w.kind, 258, n, padding) == [1, w.kind, 1, 2, n / 256, n % 256, padding, 0];
    hide MakeHeader;
    ConcatAssoc([1, w.kind, 1, 2, n / 256, n % 256, padding, 0], w.buf, Zeros(padding));
  }

  lemma EndBytes(w: W.Writer, s: W.Shared)
    requires s.requestId == 258 && 0 <= s.appStatus < 256
    ensures W.EofRecord(w, s).Encode() == [1, w.kind, 1, 2, 0, 0, 0, 0]
    ensures W.EndRequestRecord(s).Encode() == [1, 3, 1, 2, 0, 8, 0, 0, 0, 0, 0, s.appStatus, 0, 0, 0, 0]
  {
    P.EofBytes(w, s);
    P.EndRequestBytes(s);
    hide Rec.Encode;
  }

  /** Closing a stream that holds some content. */
  lemma CloseOne(w: W.Writer, s: W.Shared)
    requires E.Open(w, s) && s.requestId == 258 && 0 <= s.appStatus < 256 && 0 < |w.buf| < 65536
    ensures
      var r := W.FClose(w, s);
      r.w.errno == 0 ==>
        && r.s == s.(out := r.s.out, room := r.s.room, nWriters := s.nWriters - 1)
        && r.s.out == s.out + (Padded(w.kind, w.buf)
                      + ([1, w.kind, 1, 2, 0, 0, 0, 0]
                      + if s.nWriters == 1 then [1, 3, 1, 2, 0, 8, 0, 0, 0, 0, 0, s.appStatus, 0, 0, 0, 0] else []))
  {
    hide W.FClose, Padded, W.Outgoing, Rec.Encode;
    E.CloseSends(w, s);
    E.CloseBytes(w, s);
    ContentBytes(w, s);
    EndBytes(w, s);
    hide E.CloseRecords;
  }

  /** With some output and some error output that fit the buffers, this is exactly what the web server gets. */
  lemma ResponseSent(s: W.Shared, output: Bytes, error: Bytes, status: Byte)
    requires s.requestId == 258 && s.writeErrno != 0 && 0 < |output| <= 8184 && 0 < |error| <= 504
    ensures
      var ops := [S.OnOut(S.DoPutStr(output)), S.OnErr(S.DoPutStr(error)), S.SetExitStatus(status),
                  S.OnErr(S.DoClose), S.OnOut(S.DoClose)];
      var end := S.Run(S.Start(8192, 512, s), ops);
      end.out.errno == 0 && end.err.errno == 0 ==> end.s.out == s.out + ResponseBytes(output, error, status)
  {
    var a, b, c := S.OnOut(S.DoPutStr(output)), S.OnErr(S.DoPutStr(error)), S.SetExitStatus(status);
    var d, e := S.OnErr(S.DoClose), S.OnOut(S.DoClose);
    hide W.PutStr, W.FClose, E.Open, ResponseBytes;
    var st := S.Start(8192, 512, s);
    FiveSteps(st, a, b, c, d, e);
    P.PutFits(st.out, st.s, output);
    P.PutFits(st.err, st.s, error);
    assert [] + output == output && [] + error == error;
    var t := S.Step(S.Step(S.Step(st, a), b), c);
    assert t == S.Session(st.out.(buf := output), st.err.(buf := error), st.s.(appStatus := status));
    assert E.Open(t.err, t.s) && E.Open(t.out, t.s) by { OpenWriters(t); }
    CloseOne(t.err, t.s);
    var u := S.Step(t, d);
    if u.err.errno == 0 {
      assert E.Open(u.out, u.s) by { OpenWriters(t); OpenStays(t.out, t.s, u.s); }
      CloseOne(u.out, u.s);
      ResponseParts(s.out, output, error, status);
    }
  }

  lemma OpenWriters(t: S.Session)
    requires t.out.Sound() && t.err.Sound() && t.s.requestId == 258 && t.s.writeErrno != 0
    requires !t.out.raw && !t.out.closed && !t.out.fclosed && t.out.errno == 0
    requires !t.err.raw && !t.err.closed && !t.err.fclosed && t.err.errno == 0
    ensures E.Open(t.err, t.s) && E.Open(t.out, t.s)
  {
  }

  lemma OpenStays(w: W.Writer, s: W.Shared, u: W.Shared)
    requires E.Open(w, s) && u.requestId == s.requestId && u.writeErrno == s.writeErrno
    ensures E.Open(w, u)
  {
  }

  lemma ResponseParts(out: Bytes, output: Bytes, error: Bytes, status: Byte)
    requires |output| < 65536 && |error| < 65536
    ensures
      var first := Padded(7, error) + ([1, 7, 1, 2, 0, 0, 0, 0] + []);
      var second := Padded(6, output) + ([1, 6, 1, 2, 0, 0, 0, 0]
                    + [1, 3, 1, 2, 0, 8, 0, 0, 0, 0, 0, status, 0, 0, 0, 0]);
      out + first + second == out + ResponseBytes(output, error, status)
  {
    hide Padded;
    var first := Padded(7, error) + ([1, 7, 1, 2, 0, 0, 0, 0] + []);
    assert [1, 7, 1, 2, 0, 0, 0, 0] + [] == [1, 7, 1, 2, 0, 0, 0, 0];
    ConcatAssoc(out, first, Padded(6, output)
                + ([1, 6, 1, 2, 0, 0, 0, 0] + [1, 3, 1, 2, 0, 8, 0, 0, 0, 0, 0, status, 0, 0, 0, 0]));
  }

  lemma FiveSteps(st: S.Session, a: S.Op, b: S.Op, c: S.Op, d: S.Op, e: S.Op)
    ensures S.Run(st, [a, b, c, d, e]) == S.Step(S.Step(S.Step(S.Step(S.Step(st, a), b), c), d), e)
  {
    hide S.Step;
    assert [a, b, c, d, e][1..] == [b, c, d, e] && [b, c, d, e][1..] == [c, d, e] && [c, d, e][1..] == [d, e];
    assert [d, e][1..] == [e] && [e][1..] == [];
    var t := S.Step(S.Step(S.Step(st, a), b), c);
    assert S.Run(S.Step(S.Step(t, d), e), [e][1..]) == S.Step(S.Step(t, d), e);
    assert S.Run(S.Step(t, d), [e]) == S.Step(S.Step(t, d), e);
    assert S.Run(t, [d, e]) == S.Step(S.Step(t, d), e);
    assert S.Run(S.Step(S.Step(st, a), b), [c, d, e]) == S.Run(t, [d, e]);
    assert S.Run(S.Step(st, a), [b, c, d, e]) == S.Run(t, [d, e]);
  }
}
