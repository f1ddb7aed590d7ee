/** Accepting a request: BEGIN_REQUEST, then the parameters, then the input streams, on values. */
module FcgiAcceptSpec {
  import opened Common
  import opened FcgiWire
  import opened FcgiParams
  import opened FcgiReaderSpec
  import opened FcgiFill
  import opened FcgiDemux

  /** FCGI_ROLE=RESPONDER, FCGI_ROLE=AUTHORIZER, FCGI_ROLE=FILTER. */
  const ROLE_PREFIX: Bytes := [70, 67, 71, 73, 95, 82, 79, 76, 69, 61]
  const RESPONDER_NAME: Bytes := [82, 69, 83, 80, 79, 78, 68, 69, 82]
  const AUTHORIZER_NAME: Bytes := [65, 85, 84, 72, 79, 82, 73, 90, 69, 82]
  const FILTER_NAME: Bytes := [70, 73, 76, 84, 69, 82]

  function RoleEntry(role: int): Option<Bytes> {
    if role == RESPONDER then Some(ROLE_PREFIX + RESPONDER_NAME)
    else if role == AUTHORIZER then Some(ROLE_PREFIX + AUTHORIZER_NAME)
    else if role == FILTER then Some(ROLE_PREFIX + FILTER_NAME)
    else None
  }

  /** The outcome of one pass of FCGX_Accept_r's loop on an open connection. */
  datatype Attempt = Rejected(r: Reader) | Accepted(entries: seq<Bytes>, r: Reader) | Died

  /** One pass: r is the new reader of the connection, isBeginProcessed just cleared. */
  function Attempted(r: Reader): Attempt {
    var b := Advance(r);
    if b.aborted then Died
    else if !b.begun then Rejected(b)
    else
      match RoleEntry(b.role)
      case None => Rejected(b)
      case Some(role) =>
        var (bs, fin) := Drain(SetReaderType(b, PARAMS));
        var s := ReadParamsEnd(bs, fin);
        if s.aborted then Died
        else if ParseParams(bs).ok then Accepted([role] + ParseParams(bs).entries, SetReaderType(s, STDIN))
        else Rejected(s)
  }

  /** A reader just made for a connection. */
  predicate Fresh(r: Reader) {
    Between(r) && !r.skip && !r.begun
  }

  // ---------- the first record ----------

  function BeginRecordOf(id: int, role: int, keep: bool, reserved: Bytes, pad: Bytes): Rec
    requires 0 <= role < 65536 && |reserved| == 5
  {
    Rec(BEGIN_REQUEST, id, [role / 256, role % 256, if keep then 1 else 0] + reserved, pad)
  }

  /** The body of BEGIN_REQUEST is understood as it was meant. */
  lemma BeginUnderstood(s: Reader, id: int, role: int, keep: bool, reserved: Bytes, pad: Bytes, rest: Bytes)
    requires !s.begun && !s.skip && id != 0 && 0 <= role < 65536 && |reserved| == 5
    requires s == Stopped(s, BeginRecordOf(id, role, keep, reserved, pad), rest)
    ensures ProcessBegin(id, s) ==
      (BeginRecord, s.(p := pad + rest, contentLen := 0, requestId := id, role := role, keep := keep, begun := true))
  {
    var content := BeginRecordOf(id, role, keep, reserved, pad).content;
    assert s.p == content + (pad + rest);
    assert s.p[..8] == content && s.p[8..] == pad + rest;
    hide AdvanceEor, Starve;
  }

  /** A BEGIN_REQUEST record at the front of a connection is taken, whatever follows. */
  lemma BeginTaken(r: Reader, id: int, role: int, keep: bool, reserved: Bytes, pad: Bytes, rest: Bytes)
    requires Fresh(r) && 0 < id < 65536 && 0 <= role < 65536 && |reserved| == 5 && |pad| <= 0xff
    requires r.p == BeginRecordOf(id, role, keep, reserved, pad).Encode() + rest
    ensures
      Advance(r) == r.(p := pad + rest, paddingLen := |pad|, requestId := id, role := role, keep := keep, begun := true)
  {
    hide HeaderOf, ProcessHeader, ProcessBegin, ProcessManagement, Finish, Advance, PastContent;
    var rec := BeginRecordOf(id, role, keep, reserved, pad);
    var h, after := HeaderOf(rec), rec.content + rec.pad + rest;
    var b := r.(p := after);
    assert WithHeader(h, b) == r by {
      EncodeSplit(rec, rest);
    }
    HeaderComplete(h, b);
    BetweenRecords(r);
    HeaderUnderstood(b.(eorStop := true), rec, rest);
    BeginUnderstood(Stopped(b.(eorStop := true), rec, rest), id, role, keep, reserved, pad, rest);
  }

  // ---------- queries in front ----------

  /** Questions that can be answered, before any request. */
  predicate AllQueries(front: seq<Rec>) {
    forall i :: 0 <= i < |front| ==> Query(front[i]) && front[i].Encodable()
  }

  lemma QueryPassed(r: Reader, rec: Rec, rest: Bytes)
    requires Fresh(r) && Query(rec) && rec.Encodable() && r.p == rec.Encode() + rest && rest != []
    requires |Answer(rec, false)| <= r.room
    ensures Advance(r) == Advance(Emit(r, Answer(rec, false)).(p := rest))
  {
    DefinedUnlessTooLarge(rec.content);
    hide HeaderOf, OnHeader, Finish, Advance, PastContent, ParseParams, ReplyFits, ValuesReply;
    var h, after := HeaderOf(rec), rec.content + rec.pad + rest;
    var b := r.(p := after);
    EncodeSplit(rec, rest);
    assert WithHeader(h, b) == r;
    hide WithHeader;
    HeaderComplete(h, b);
    BetweenRecords(r);
    ValuesHeader(b, rec, rest);
    assert |rec.pad + rest| > 0;
  }

  /** Queries in front of a request are answered, and do not show otherwise. */
  lemma {:induction false} QueriesPassed(r: Reader, front: seq<Rec>, rest: Bytes)
    requires Fresh(r) && AllQueries(front) && r.p == Serialize(front, rest) && rest != []
    requires |Answers(front, 0, false)| <= r.room
    ensures Advance(r) == Advance(Emit(r, Answers(front, 0, false)).(p := rest))
    decreases |front|
  {
    hide Answer, Advance, Query;
    if front == [] {
      assert r.out + [] == r.out;
    } else {
      QueryLeavesNoSkip(front[0]);
      var tail := Serialize(front[1..], rest);
      SerializeRest(front[1..], rest);
      QueryPassed(r, front[0], tail);
      var s := Emit(r, Answer(front[0], false)).(p := tail);
      QueriesPassed(s, front[1..], rest);
      ConcatAssoc(r.out, Answer(front[0], false), Answers(front[1..], 0, false));
    }
  }

  lemma QueryLeavesNoSkip(rec: Rec)
    requires Query(rec)
    ensures !SkipAfter(rec, 0, false)
  {
  }

  // ---------- a whole connection ----------

  /** The records of one stream and its unpadded end. */
  function StreamOf(rs: seq<Rec>, kind: Byte, id: int): seq<Rec> {
    rs + [EndOfStream(kind, id, [])]
  }

  /** Records that may be mixed into a stream without disturbing it. */
  predicate Undisturbed(rs: seq<Rec>, kind: Byte, id: int) {
    && AllLawful(rs, kind, id)
    && forall i :: 0 <= i < |rs| ==> !OddManagement(rs[i]) && (Foreign(rs[i], id) ==> rs[i].content != [])
  }

  /** A stream whose reader has just been set to its type is read to its end; switching the reader to the
      next type then continues exactly behind it. */
  lemma StreamThenNext(r: Reader, rs: seq<Rec>, next: Byte, rest: Bytes)
    requires Idle(r) && !r.skip && r.kind != BEGIN_REQUEST && 0 < r.requestId < 65536
    requires Undisturbed(rs, r.kind, r.requestId) && |Answers(rs, r.requestId, false)| <= r.room
    requires r.p == Serialize(StreamOf(rs, r.kind, r.requestId), rest)
    ensures
      var (data, fin) := Drain(r);
      var t := SetReaderType(fin, next);
      && data == Contents(rs, r.kind, r.requestId)
      && fin.closed && !fin.aborted && fin.errno == 0 && fin.p == rest
      && fin.kind == r.kind && fin.role == r.role && fin.keep == r.keep
      && Idle(t) && !t.skip && t.p == rest && t.kind == next && t.requestId == r.requestId && t.role == r.role
      && t.out == r.out + Answers(rs, r.requestId, false)
      && t.room == r.room - |Answers(rs, r.requestId, false)|
  {
    hide Drain, Answers;
    StreamDecodes(r, rs, [], rest);
    UnknownOnlyAdds(rs, r.kind, r.requestId);
    assert [] + rest == rest;
  }

  /** What a web server sends for one request: queries may come in front, and any padding and any undisturbing records
      may be in its streams. Only a filter gets a data stream; rest is whatever comes behind. */
  datatype Sent = Sent(front: seq<Rec>, id: int, role: int, keep: bool, reserved: Bytes, ps: seq<Pair>,
                       params: seq<Rec>, stdin: seq<Rec>, data: seq<Rec>, rest: Bytes)
  {
    predicate Proper() {
      && AllQueries(front) && 0 < id < 65536 && RESPONDER <= role <= FILTER && |reserved| == 5
      && Undisturbed(params, PARAMS, id) && Undisturbed(stdin, STDIN, id)
      && (role == FILTER ==> Undisturbed(data, DATA, id))
      && AllPairsEncodable(ps) && Contents(params, PARAMS, id) == EncodePairs(ps, [])
    }

    function BehindInput(): Bytes {
      if role == FILTER then Serialize(StreamOf(data, DATA, id), rest) else rest
    }

    function BehindParams(): Bytes {
      Serialize(StreamOf(stdin, STDIN, id), BehindInput())
    }

    function Request(): Bytes
      requires Proper()
    {
      BeginRecordOf(id, role, keep, reserved, []).Encode() + Serialize(StreamOf(params, PARAMS, id), BehindParams())
    }

    function Wire(): Bytes
      requires Proper()
    {
      Serialize(front, Request())
    }

    /** Bytes the library answers to what is mixed into the streams. */
    function Replies(): nat {
      var most := |Answers(front, 0, false)| + |Answers(params, id, false)| + |Answers(stdin, id, false)|;
      if role == FILTER then most + |Answers(data, id, false)| else most
    }

    function Environment(): seq<Bytes>
      requires Proper()
    {
      [RoleEntry(role).value] + Entries(ps)
    }

    /** The reader knows the request and still has all of the input: its STDIN content and then the end without error
        and, for a filter, the DATA content behind it. */
    ghost predicate InputOf(r: Reader) {
      && r.begun && !r.aborted && r.kind == STDIN && r.requestId == id && r.role == role && r.keep == keep
      && var (input, end) := Drain(r);
         && input == Contents(stdin, STDIN, id) && end.p == BehindInput()
         && end.closed && !end.aborted && end.errno == 0
         && end.kind == STDIN && end.role == role
         && (role == FILTER ==> DataOf(SetReaderType(end, DATA)))
    }

    ghost predicate DataOf(r: Reader) {
      var (more, fin) := Drain(r);
      more == Contents(data, DATA, id) && fin.closed && !fin.aborted && fin.errno == 0 && fin.p == rest
    }
  }

  /** A connection that, perhaps behind queries, opens a request and sends its parameters and its standard input is
      accepted, with the role first and then the pairs in order; reading gives the standard input and then the end
      without error. For a filter, switching the reader then gives the data stream. */
  lemma WholeConnection(sent: Sent, r: Reader)
    requires sent.Proper() && Fresh(r) && r.p == sent.Wire() && sent.Replies() <= r.room
    ensures var a := Attempted(r); a.Accepted? && a.entries == sent.Environment() && sent.InputOf(a.r)
  {
    hide Drain, Answers, ParseParams, Advance, Sent.Environment, Sent.InputOf, Sent.Request;
    RequestTakesSpace(sent);
    QueriesPassed(r, sent.front, sent.Request());
    var s := Emit(r, Answers(sent.front, 0, false)).(p := sent.Request());
    RequestAccepted(sent, s);
    assert Attempted(r) == Attempted(s);
  }

  lemma RequestTakesSpace(sent: Sent)
    requires sent.Proper()
    ensures sent.Request() != []
  {
  }

  lemma RequestAccepted(sent: Sent, r: Reader)
    requires sent.Proper() && Fresh(r) && r.p == sent.Request()
    requires sent.Replies() <= r.room + |Answers(sent.front, 0, false)|
    ensures var a := Attempted(r); a.Accepted? && a.entries == sent.Environment() && sent.InputOf(a.r)
  {
    hide Drain, Answers, Contents, EncodePairs, Undisturbed, ParseParams, Advance;
    var id := sent.id;
    var front := Serialize(StreamOf(sent.params, PARAMS, id), sent.BehindParams());
    BeginTaken(r, id, sent.role, sent.keep, sent.reserved, [], front);
    var b := SetReaderType(Advance(r), PARAMS);
    assert [] + front == front;
    assert Idle(b);
    StreamThenNext(b, sent.params, STDIN, sent.BehindParams());
    DecodeInvertsEncode(sent.ps);
    InputArrives(sent, SetReaderType(Drain(b).1, STDIN));
  }

  lemma InputArrives(sent: Sent, r: Reader)
    requires sent.Proper() && Idle(r) && !r.skip && r.kind == STDIN && r.requestId == sent.id && r.role == sent.role
    requires r.keep == sent.keep && r.p == sent.BehindParams()
    requires sent.Replies() <= r.room + |Answers(sent.front, 0, false)| + |Answers(sent.params, sent.id, false)|
    ensures sent.InputOf(r)
  {
    hide Drain, Answers, Contents, EncodePairs, Undisturbed;
    StreamThenNext(r, sent.stdin, DATA, sent.BehindInput());
    if sent.role == FILTER {
      StreamThenNext(SetReaderType(Drain(r).1, DATA), sent.data, 0, sent.rest);
    }
  }

  // ---------- what padding does at a switch ----------

  /** A padded BEGIN_REQUEST loses the parameters: the padding is forgotten with the reader's type and read as
      a header. If it is not taken for a version 1 header, the request is still accepted, with only the
      role, and the stream carries the error. */
  lemma PaddedBeginLosesParams(r: Reader, id: int, role: int, keep: bool, reserved: Bytes, pad: Bytes, rest: Bytes)
    requires Fresh(r) && 0 < id < 65536 && RESPONDER <= role <= FILTER && |reserved| == 5 && 0 < |pad| <= 0xff
    requires pad[0] != VERSION_1 && |pad + rest| >= HEADER_LEN
    requires r.p == BeginRecordOf(id, role, keep, reserved, pad).Encode() + rest
    ensures
      var a := Attempted(r);
      a.Accepted? && a.entries == [RoleEntry(role).value] && a.r.errno == UNSUPPORTED_VERSION
  {
    NoPairs();
    hide Drain, Advance, ParseParams, BeginRecordOf;
    BeginTaken(r, id, role, keep, reserved, pad, rest);
    var b := SetReaderType(Advance(r), PARAMS);
    BadVersion(b);
    assert [RoleEntry(role).value] + [] == [RoleEntry(role).value];
  }

  lemma NoPairs()
    ensures ParseParams([]) == Parsed([], true)
  {
  }

  lemma BadVersion(r: Reader)
    requires Idle(r) && |r.p| >= HEADER_LEN && r.p[0] != VERSION_1
    ensures Drain(r).0 == [] && Drain(r).1.errno == UNSUPPORTED_VERSION && Drain(r).1.closed && !Drain(r).1.aborted
  {
    var h := r.p[..HEADER_LEN];
    var b := r.(p := r.p[HEADER_LEN..]);
    assert WithHeader(h, b) == r;
    HeaderComplete(h, b);
    BetweenRecords(r);
    assert OnHeader(h, b) == Return(SetError(b, UNSUPPORTED_VERSION));
    hide Finish, PastContent, OnHeader;
    EndOfDrain(r, Advance(r));
  }

  /** Padding whose first byte is not taken for the version of a header, such as the zeros of this library's own
      writers. Other padding may happen to be records, see PaddingOfRecords. */
  predicate NoHeaderByChance(pad: Bytes) {
    |pad| <= 0xff && (pad != [] ==> pad[0] != VERSION_1)
  }

  /** The parameters of a connection arrive if and only if BEGIN_REQUEST is not padded (or there are none to lose). */
  lemma ParamsArriveUnlessBeginPadded(r: Reader, id: int, role: int, keep: bool, reserved: Bytes, pad: Bytes,
                                      ps: seq<Pair>, params: seq<Rec>, rest: Bytes)
    requires Fresh(r) && 0 < id < 65536 && RESPONDER <= role <= FILTER && |reserved| == 5 && NoHeaderByChance(pad)
    requires Undisturbed(params, PARAMS, id) && |Answers(params, id, false)| <= r.room
    requires AllPairsEncodable(ps) && Contents(params, PARAMS, id) == EncodePairs(ps, [])
    requires r.p == BeginRecordOf(id, role, keep, reserved, pad).Encode()
                    + Serialize(StreamOf(params, PARAMS, id), rest)
    ensures Attempted(r).Accepted?
    ensures Attempted(r).entries == [RoleEntry(role).value] + Entries(ps) <==> pad == [] || ps == []
  {
    hide Drain, Answers, Contents, EncodePairs, Undisturbed, ParseParams, Advance;
    var front := Serialize(StreamOf(params, PARAMS, id), rest);
    EndTakesSpace(params, PARAMS, id, rest);
    if pad != [] {
      PaddedBeginLosesParams(r, id, role, keep, reserved, pad, front);
    } else {
      BeginTaken(r, id, role, keep, reserved, [], front);
      var b := SetReaderType(Advance(r), PARAMS);
      assert [] + front == front;
      assert Idle(b);
      StreamThenNext(b, params, STDIN, rest);
      DecodeInvertsEncode(ps);
    }
  }

  /** After a stream with a padded end, the next stream is lost: its content arrives if and only if the end was not
      padded (or there is none to lose), and its end is without error if and only if it was not. */
  lemma NextArrivesUnlessEndPadded(r: Reader, rs: seq<Rec>, pad: Bytes, next: Byte, ns: seq<Rec>, rest: Bytes)
    requires Idle(r) && !r.skip && r.kind != BEGIN_REQUEST && next != BEGIN_REQUEST && 0 < r.requestId < 65536
    requires Undisturbed(rs, r.kind, r.requestId) && Undisturbed(ns, next, r.requestId) && NoHeaderByChance(pad)
    requires |Answers(rs, r.requestId, false)| + |Answers(ns, r.requestId, false)| <= r.room
    requires r.p == Serialize(rs + [EndOfStream(r.kind, r.requestId, pad)],
                      Serialize(StreamOf(ns, next, r.requestId), rest))
    ensures Drain(r).0 == Contents(rs, r.kind, r.requestId) && Drain(r).1.closed && Drain(r).1.errno == 0
    ensures
      var (data, fin) := Drain(SetReaderType(Drain(r).1, next));
      && (data == Contents(ns, next, r.requestId) <==> pad == [] || Contents(ns, next, r.requestId) == [])
      && (fin.errno == 0 <==> pad == [])
      && (pad != [] ==> data == [] && fin.errno == UNSUPPORTED_VERSION)
  {
    hide Drain, Answers;
    var front := Serialize(StreamOf(ns, next, r.requestId), rest);
    EndTakesSpace(ns, next, r.requestId, rest);
    StreamDecodes(r, rs, pad, front);
    UnknownOnlyAdds(rs, r.kind, r.requestId);
    NothingPending(rs, r.kind, r.requestId);
    hide Contents, Undisturbed, PendingAfter;
    var t := SetReaderType(Drain(r).1, next);
    if pad == [] {
      assert pad + front == front;
      StreamThenNext(t, ns, 0, rest);
    } else {
      BadVersion(t);
    }
  }

  /** Padding that happens to be whole records is read as such, in front of the next stream. */
  lemma PaddingOfRecords(r: Reader, rs: seq<Rec>, ms: seq<Rec>, next: Byte, ns: seq<Rec>, rest: Bytes)
    requires Idle(r) && !r.skip && r.kind != BEGIN_REQUEST && next != BEGIN_REQUEST && 0 < r.requestId < 65536
    requires Undisturbed(rs, r.kind, r.requestId) && Undisturbed(ms + ns, next, r.requestId)
    requires |Serialize(ms, [])| <= 0xff
    requires |Answers(rs, r.requestId, false)| + |Answers(ms + ns, r.requestId, false)| <= r.room
    requires r.p == Serialize(rs + [EndOfStream(r.kind, r.requestId, Serialize(ms, []))],
                      Serialize(StreamOf(ns, next, r.requestId), rest))
    ensures
      var (data, fin) := Drain(SetReaderType(Drain(r).1, next));
      data == Contents(ms + ns, next, r.requestId) && fin.closed && fin.errno == 0 && fin.p == rest
  {
    hide Drain, Answers;
    var stream := StreamOf(ns, next, r.requestId);
    StreamDecodes(r, rs, Serialize(ms, []), Serialize(stream, rest));
    UnknownOnlyAdds(rs, r.kind, r.requestId);
    NothingPending(rs, r.kind, r.requestId);
    hide Contents, Undisturbed, PendingAfter;
    SerializeAppend(ms, stream, rest);
    SerializeRest(ms, Serialize(stream, rest));
    assert ms + stream == StreamOf(ms + ns, next, r.requestId);
    StreamThenNext(SetReaderType(Drain(r).1, next), ms + ns, 0, rest);
  }

  lemma {:induction false} NothingPending(rs: seq<Rec>, kind: Byte, id: int)
    requires Undisturbed(rs, kind, id) && kind != BEGIN_REQUEST
    ensures !PendingAfter(rs, id, false)
    decreases |rs|
  {
    if rs != [] {
      assert Lawful(rs[0], kind, id);
      NothingPending(rs[1..], kind, id);
    }
  }

  /** The connection is accepted with these entries, but its input reads as empty, with an error. */
  predicate AcceptedWithoutInput(r: Reader, entries: seq<Bytes>) {
    match Attempted(r)
    case Accepted(found, input) =>
      found == entries && Drain(input).0 == [] && Drain(input).1.errno == UNSUPPORTED_VERSION
    case _ => false
  }

  /** In a whole connection: with a padded end of the parameters the request is accepted with all of them, and the
      standard input reads as empty, with an error. */
  lemma PaddedParamsEndLosesInput(r: Reader, id: int, role: int, keep: bool, reserved: Bytes, pad: Bytes, ps: seq<Pair>,
                                  params: seq<Rec>, stdin: seq<Rec>, rest: Bytes)
    requires Fresh(r) && 0 < id < 65536 && RESPONDER <= role <= FILTER && |reserved| == 5
    requires NoHeaderByChance(pad) && pad != []
    requires Undisturbed(params, PARAMS, id) && Undisturbed(stdin, STDIN, id)
    requires |Answers(params, id, false)| + |Answers(stdin, id, false)| <= r.room
    requires AllPairsEncodable(ps) && Contents(params, PARAMS, id) == EncodePairs(ps, [])
    requires r.p == BeginRecordOf(id, role, keep, reserved, []).Encode()
                    + Serialize(params + [EndOfStream(PARAMS, id, pad)], Serialize(StreamOf(stdin, STDIN, id), rest))
    ensures AcceptedWithoutInput(r, [RoleEntry(role).value] + Entries(ps))
  {
    hide Drain, Answers, Contents, EncodePairs, Undisturbed, ParseParams, Advance;
    var behind := Serialize(StreamOf(stdin, STDIN, id), rest);
    var front := Serialize(params + [EndOfStream(PARAMS, id, pad)], behind);
    BeginTaken(r, id, role, keep, reserved, [], front);
    var b := SetReaderType(Advance(r), PARAMS);
    assert [] + front == front;
    assert Idle(b);
    NextArrivesUnlessEndPadded(b, params, pad, STDIN, stdin, rest);
    DecodeInvertsEncode(ps);
    ClosedNotAborted(b, params, pad, behind);
  }

  lemma ClosedNotAborted(r: Reader, rs: seq<Rec>, pad: Bytes, rest: Bytes)
    requires Idle(r) && !r.skip && r.kind != BEGIN_REQUEST && 0 < r.requestId < 65536 && |pad| <= 0xff
    requires Undisturbed(rs, r.kind, r.requestId) && |Answers(rs, r.requestId, false)| <= r.room
    requires r.p == Serialize(rs + [EndOfStream(r.kind, r.requestId, pad)], rest)
    ensures !Drain(r).1.aborted
  {
    hide Drain, Answers;
    StreamDecodes(r, rs, pad, rest);
  }

  /** The shortest such connection: no parameters, one byte of padding behind their end, and the input "A". */
  lemma PaddedParamsEndExample(r: Reader)
    requires Fresh(r)
    requires r.p == BeginRecordOf(1, RESPONDER, false, [0, 0, 0, 0, 0], []).Encode()
                    + Serialize([] + [EndOfStream(PARAMS, 1, [0])],
                                Serialize(StreamOf([Rec(STDIN, 1, [65], [])], STDIN, 1), []))
    ensures Contents([Rec(STDIN, 1, [65], [])], STDIN, 1) == [65]
    ensures AcceptedWithoutInput(r, [RoleEntry(RESPONDER).value])
  {
    var input := [Rec(STDIN, 1, [65], [])];
    assert input[1..] == [] && Contents(input[1..], STDIN, 1) == [];
    assert Answers(input[1..], 1, false) == [] && Answers(input, 1, false) == [];
    hide Drain, AcceptedWithoutInput, Serialize;
    PaddedParamsEndLosesInput(r, 1, RESPONDER, false, [0, 0, 0, 0, 0], [0], [], [], input, []);
    assert [RoleEntry(RESPONDER).value] + Entries([]) == [RoleEntry(RESPONDER).value];
  }

  lemma EndTakesSpace(rs: seq<Rec>, kind: Byte, id: int, rest: Bytes)
    ensures |Serialize(StreamOf(rs, kind, id), rest)| >= HEADER_LEN
  {
    var end := EndOfStream(kind, id, []);
    SerializeAppend(rs, [end], rest);
    SerializeOne(end, rest);
    SerializeRest(rs, Serialize([end], rest));
  }

  // ---------- trying connections ----------

  datatype ConnValue = ConnValue(incoming: Bytes, readErrno: int, outgoing: Bytes, room: nat, writeErrno: int)

  /** A new reader on a connection; request id, role and keep flag are what the last attempt left. */
  function FreshOn(c: ConnValue, id: int, role: int, keep: bool): Reader {
    Reader(c.incoming, c.readErrno, c.outgoing, c.room, c.writeErrno, 0, id, false, role, keep,
           false, false, 0, 0, false, 0, false)
  }

  datatype Outcome = Exhausted | Found(index: nat, entries: seq<Bytes>, r: Reader) | Crashed(index: nat)

  /** The first connection, in order, on which a request is accepted. */
  function AcceptFirst(cs: seq<ConnValue>, id: int, role: int, keep: bool): (o: Outcome)
    ensures !o.Exhausted? ==> o.index < |cs|
    decreases |cs|
  {
    if cs == [] then Exhausted
    else
      match Attempted(FreshOn(cs[0], id, role, keep))
      case Accepted(entries, r) => Found(0, entries, r)
      case Died => Crashed(0)
      case Rejected(r) =>
        match AcceptFirst(cs[1..], r.requestId, r.role, r.keep)
        case Exhausted => Exhausted
        case Found(k, entries, t) => Found(k + 1, entries, t)
        case Crashed(k) => Crashed(k + 1)
  }
}
