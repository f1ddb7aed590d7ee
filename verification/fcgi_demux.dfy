/** Demultiplexing, stated on records: what a reader whose request has begun makes of any list of
    records on its connection, and where that differs from "the contents of the wanted records up
    to the first empty one". */
module FcgiDemux {
  import opened Common
  import opened FcgiWire
  import opened FcgiParams
  import opened FcgiReaderSpec
  import opened FcgiFill

  /** Between two records of a begun request, with no error so far. */
  predicate Idle(r: Reader) {
    Between(r) && r.begun
  }

  /** Between two records, whether or not a request has begun. */
  predicate Between(r: Reader) {
    && !r.closed && !r.aborted && !r.eorStop && r.errno == 0
    && r.contentLen == 0 && r.paddingLen == 0
    && r.writeErrno != 0
  }

  /** The effect of one record: it may end the stream, or deliver data and leave the reader idle. */
  datatype Effect = Ends(fin: Reader) | Delivers(data: Bytes, r: Reader)

  /** Stopped on the header of a record, its content and padding unread. */
  function Stopped(r: Reader, rec: Rec, rest: Bytes): Reader {
    r.(p := rec.content + rec.pad + rest, contentLen := |rec.content|, paddingLen := |rec.pad|)
  }

  /** The content of a record whose header has been accepted. A pending skip takes the content, but only
      a nonempty content clears it. */
  function TakeContent(r: Reader, rec: Rec, rest: Bytes): Effect {
    Delivers(if r.skip then [] else rec.content, r.(p := rest, skip := r.skip && rec.content == []))
  }

  /** A reply that could not be written closes the stream. */
  function AfterReply(r: Reader, reply: Bytes, stopped: Reader, go: Reader -> Effect): Effect {
    if |reply| <= r.room then go(Emit(r, reply))
    else Ends(SetError(Emit(stopped, reply), r.writeErrno))
  }

  /** GET_VALUES is read with the record's end as end of stream; finding that end needs one more byte
      on the connection, unless the content was skipped. Entries too large for an int, and answers that do not fit
      the library's array, end everything. */
  function ManagementEffect(r: Reader, rec: Rec, rest: Bytes): Effect {
    var asked := if r.skip then [] else rec.content;
    var quiet := r.(p := rest, skip := r.skip && rec.content == []);
    if ParseParams(asked).overflow then Ends(Dead())
    else if |rec.pad + rest| == 0 && (!r.skip || rec.content == []) then Ends(Starve(quiet))
    else if !ParseParams(asked).ok then Ends(SetError(quiet, PARAMS_ERROR))
    else if !ReplyFits(ParseParams(asked).entries) then Ends(Dead())
    else
      AfterReply(r, ValuesReply(ParseParams(asked).entries), quiet,
                 (sent: Reader) => Delivers([], sent.(p := rest, skip := r.skip && rec.content == [])))
  }

  function RecordEffect(r: Reader, rec: Rec, rest: Bytes): Effect {
    var stopped := Stopped(r, rec, rest);
    if rec.kind == BEGIN_REQUEST then
      if rec.id == 0 || |rec.content| != 8 then Ends(SetError(stopped, PROTOCOL_ERROR))
      else AfterReply(r, CantMpxReply(rec.id), stopped, (sent: Reader) => TakeContent(sent.(skip := true), rec, rest))
    else if rec.id == NULL_REQUEST_ID then
      if rec.kind == GET_VALUES then ManagementEffect(r, rec, rest)
      else AfterReply(r, UnknownReply(rec.kind), stopped, (sent: Reader) => TakeContent(sent, rec, rest))
    else if rec.id != r.requestId then TakeContent(r.(skip := true), rec, rest)
    else if rec.kind != r.kind then Ends(SetError(stopped, PROTOCOL_ERROR))
    else if rec.content == [] then Ends(stopped.(closed := true))
    else TakeContent(r, rec, rest)
  }

  /** All records of a list, read in order from a connection that carries rest behind them. */
  function RecordsEffect(r: Reader, rs: seq<Rec>, rest: Bytes): (res: (Bytes, Reader, bool))
    decreases |rs|
  {
    if rs == [] then ([], r.(p := rest), false)
    else
      match RecordEffect(r, rs[0], Serialize(rs[1..], rest))
      case Ends(fin) => ([], fin, true)
      case Delivers(data, s) =>
        var (more, t, ended) := RecordsEffect(s, rs[1..], rest);
        (data + more, t, ended)
  }

  // ---------- the bytes behind a header ----------

  lemma SameFuture(a: Reader, b: Reader)
    requires !a.closed && !b.closed && Advance(a) == Advance(b)
    ensures Drain(a) == Drain(b)
  {
    hide Advance;
    assert GetChar(a) == GetChar(b);
  }

  /** Padding is passed over. */
  lemma PaddingGone(s: Reader, pad: Bytes, rest: Bytes)
    requires !s.closed && !s.eorStop && s.contentLen == 0 && s.paddingLen == |pad| && s.p == pad + rest
    ensures Advance(s) == Advance(s.(p := rest, paddingLen := 0))
    ensures PastContent(s) == s.(p := rest, paddingLen := 0)
  {
    var t := s.(p := rest, paddingLen := 0);
    assert DropPadding(s) == t by {
      assert s.p[|pad|..] == rest;
    }
    hide DropPadding;
    assert PastContent(s) == t;
    if |s.p| > 0 {
      NoContentLeft(s);
    } else {
      assert s == t;
    }
    BetweenRecords(t);
    hide PastContent, Advance, Finish;
  }

  /** Skipped content and padding are passed over. */
  lemma ContentSkipped(s: Reader, rec: Rec, rest: Bytes)
    requires !s.closed && !s.eorStop && s.skip && s == Stopped(s, rec, rest)
    ensures Advance(s) == Advance(s.(p := rest, contentLen := 0, paddingLen := 0, skip := rec.content == []))
  {
    hide Advance, Finish, PastContent;
    var n := |rec.content|;
    if n == 0 {
      assert s.p == rec.pad + rest;
      PaddingGone(s, rec.pad, rest);
    } else {
      var t := s.(p := rec.pad + rest, contentLen := 0, skip := false);
      assert s.p[n..] == rec.pad + rest;
      SkippedSome(s, n);
      PaddingGone(t, rec.pad, rest);
      BetweenRecords(t.(p := rest, paddingLen := 0));
    }
  }

  /** Content that is not skipped comes first, then whatever follows the record. */
  lemma ContentDelivered(s: Reader, rec: Rec, rest: Bytes)
    requires !s.closed && !s.eorStop && !s.skip && s == Stopped(s, rec, rest)
    ensures
      var (more, fin) := Drain(s.(p := rest, contentLen := 0, paddingLen := 0));
      Drain(s) == (rec.content + more, fin)
  {
    hide Advance, Drain, PastContent;
    var n := |rec.content|;
    var t := s.(p := rec.pad + rest, contentLen := 0);
    assert s.p[..n] == rec.content && s.p[n..] == rec.pad + rest;
    DrainReady(s, n);
    PaddingGone(t, rec.pad, rest);
    SameFuture(t, s.(p := rest, contentLen := 0, paddingLen := 0));
  }

  /** Both cases: the effect of the content is what the client gets. */
  lemma ContentTaken(s: Reader, rec: Rec, rest: Bytes)
    requires !s.closed && !s.eorStop && s == Stopped(s, rec, rest)
    ensures
      var e := TakeContent(s.(contentLen := 0, paddingLen := 0), rec, rest);
      var (more, fin) := Drain(e.r);
      Drain(s) == (e.data + more, fin)
  {
    hide Advance, Drain;
    var e := TakeContent(s.(contentLen := 0, paddingLen := 0), rec, rest);
    if s.skip {
      ContentSkipped(s, rec, rest);
      SameFuture(s, e.r);
      assert [] + Drain(e.r).0 == Drain(e.r).0;
    } else {
      ContentDelivered(s, rec, rest);
    }
  }

  /** What the reader of a GET_VALUES record sees of it. */
  lemma ManagementContent(s: Reader, rec: Rec, rest: Bytes)
    requires !s.closed && s.eorStop && s == Stopped(s, rec, rest)
    ensures
      var q := s.(p := rest, contentLen := 0, paddingLen := 0, skip := s.skip && rec.content == []);
      var starved := |rec.pad + rest| == 0 && (!s.skip || rec.content == []);
      EorContent(s) == (if s.skip then [] else rec.content, if starved then Starve(q) else q.(closed := true))
  {
    var n := |rec.content|;
    var q := s.(p := rest, contentLen := 0, paddingLen := 0, skip := s.skip && rec.content == []);
    var t := s.(p := rec.pad + rest, contentLen := 0, skip := q.skip);
    assert s.p[n..] == rec.pad + rest && s.p[..n] == rec.content;
    PaddingDropped(t, rec.pad, rest);
    if n > 0 && s.skip {
      assert DropContent(s) == t;
      hide DropContent, PastContent;
    } else if n > 0 {
      assert t == s.(p := s.p[n..], contentLen := 0);
      hide PastContent;
    } else {
      assert s.p == rec.pad + rest;
      hide PastContent;
    }
  }

  lemma PaddingDropped(t: Reader, pad: Bytes, rest: Bytes)
    requires !t.closed && t.contentLen == 0 && t.paddingLen == |pad| && t.p == pad + rest
    ensures PastContent(t) == t.(p := rest, paddingLen := 0)
    ensures |t.p| == 0 ==> pad == [] && rest == []
  {
    assert t.p[|pad|..] == rest;
  }

  // ---------- headers of encoded records ----------

  function HeaderOf(rec: Rec): (h: Bytes)
    ensures |h| == HEADER_LEN
  {
    MakeHeader(rec.kind, rec.id, |rec.content|, |rec.pad|)
  }

  /** An encoded header is understood as it was meant. */
  lemma HeaderUnderstood(r: Reader, rec: Rec, rest: Bytes)
    requires rec.Encodable() && r.p == rec.content + rec.pad + rest
    ensures
      var s := Stopped(r, rec, rest);
      ProcessHeader(HeaderOf(rec), r) ==
        if rec.kind == BEGIN_REQUEST then ProcessBegin(rec.id, s)
        else if rec.id == NULL_REQUEST_ID then ProcessManagement(rec.kind, s)
        else if rec.id != s.requestId then (Skip, s)
        else if rec.kind != s.kind then (Failed(PROTOCOL_ERROR), s)
        else (StreamRecord, s)
  {
    hide ProcessBegin, ProcessManagement;
    HeaderRoundTrip(rec.kind, rec.id, |rec.content|, |rec.pad|);
    hide MakeHeader, HeaderContentLength, HeaderRequestId;
  }

  lemma EncodeSplit(rec: Rec, rest: Bytes)
    ensures rec.Encode() + rest == HeaderOf(rec) + (rec.content + rec.pad + rest)
  {
    hide MakeHeader;
  }

  lemma EndOfDrain(r: Reader, s: Reader)
    requires !r.closed && Advance(r) == s && s.closed
    ensures Drain(r) == ([], s)
  {
    hide Advance;
  }

  /** How an idle reader proceeds from the header of the next record. */
  lemma RecordStarts(r: Reader, rec: Rec, rest: Bytes)
    requires Idle(r) && r.p == rec.Encode() + rest
    ensures
      match OnHeader(HeaderOf(rec), r.(p := rec.content + rec.pad + rest))
      case Return(s) => s.closed && Drain(r) == ([], s)
      case Loop(s) => !s.closed && Drain(r) == Drain(s)
  {
    hide HeaderOf, OnHeader, Finish, Advance, Drain, PastContent;
    var h, after := HeaderOf(rec), rec.content + rec.pad + rest;
    var b := r.(p := after);
    EncodeSplit(rec, rest);
    assert WithHeader(h, b) == r;
    hide WithHeader;
    HeaderComplete(h, b);
    BetweenRecords(r);
    OnHeaderKeepsBegun(h, b);
    match OnHeader(h, b) {
      case Return(s) => EndOfDrain(r, s);
      case Loop(s) => SameFuture(r, s);
    }
  }

  lemma StreamHeader(r: Reader, rec: Rec, rest: Bytes)
    requires Idle(r) && rec.Encodable() && r.p == rec.content + rec.pad + rest
    requires rec.kind != BEGIN_REQUEST && rec.id != NULL_REQUEST_ID
    ensures
      var s := Stopped(r, rec, rest);
      OnHeader(HeaderOf(rec), r) ==
        if rec.id != r.requestId then Loop(s.(skip := true))
        else if rec.kind != r.kind then Return(SetError(s, PROTOCOL_ERROR))
        else if rec.content == [] then Return(s.(closed := true))
        else Loop(s)
  {
    hide HeaderOf, ProcessHeader;
    HeaderUnderstood(r.(eorStop := true), rec, rest);
  }

  lemma BeginHeader(r: Reader, rec: Rec, rest: Bytes)
    requires Idle(r) && rec.Encodable() && r.p == rec.content + rec.pad + rest
    requires rec.kind == BEGIN_REQUEST
    ensures
      var s := Stopped(r, rec, rest);
      var reply := CantMpxReply(rec.id);
      OnHeader(HeaderOf(rec), r) ==
        if rec.id == 0 || |rec.content| != 8 then Return(SetError(s, PROTOCOL_ERROR))
        else if |reply| <= r.room then Loop(Emit(s, reply).(skip := true))
        else Return(SetError(Emit(s, reply), r.writeErrno))
  {
    hide HeaderOf, ProcessHeader, CantMpxReply;
    HeaderUnderstood(r.(eorStop := true), rec, rest);
  }

  lemma UnknownHeader(r: Reader, rec: Rec, rest: Bytes)
    requires Idle(r) && rec.Encodable() && r.p == rec.content + rec.pad + rest
    requires rec.kind != BEGIN_REQUEST && rec.kind != GET_VALUES && rec.id == NULL_REQUEST_ID
    ensures
      var s := Stopped(r, rec, rest);
      var reply := UnknownReply(rec.kind);
      OnHeader(HeaderOf(rec), r) ==
        if |reply| <= r.room then Loop(Emit(s, reply)) else Return(SetError(Emit(s, reply), r.writeErrno))
  {
    hide HeaderOf, ProcessHeader, UnknownReply;
    HeaderUnderstood(r.(eorStop := true), rec, rest);
  }

  /** A query's content is parsed, and answered if the record's end was found. */
  lemma ValuesProcessed(s: Reader, rec: Rec, rest: Bytes)
    requires !s.closed && !s.aborted && s.eorStop && s.errno == 0 && s == Stopped(s, rec, rest)
    ensures
      var asked := if s.skip then [] else rec.content;
      var q := s.(p := rest, contentLen := 0, paddingLen := 0, skip := s.skip && rec.content == [], closed := true);
      ProcessManagement(GET_VALUES, s) ==
        if ParseParams(asked).overflow then (Aborted, Dead())
        else if |rec.pad + rest| == 0 && (!s.skip || rec.content == []) then (Failed(PROTOCOL_ERROR), Starve(q))
        else if !ParseParams(asked).ok then (Failed(PROTOCOL_ERROR), SetError(q, PARAMS_ERROR))
        else if !ReplyFits(ParseParams(asked).entries) then (Aborted, Dead())
        else Reply(q, ValuesReply(ParseParams(asked).entries), MgmtRecord)
  {
    hide ValuesReply, ParseParams, EorContent, ReplyFits, Reply;
    ManagementContent(s, rec, rest);
  }

  lemma ValuesHeader(r: Reader, rec: Rec, rest: Bytes)
    requires Between(r) && rec.Encodable() && r.p == rec.content + rec.pad + rest
    requires rec.kind == GET_VALUES && rec.id == NULL_REQUEST_ID
    ensures
      OnHeader(HeaderOf(rec), r) ==
        match ManagementEffect(r, rec, rest)
        case Ends(fin) => Return(fin)
        case Delivers(_, s) => Loop(s)
  {
    hide HeaderOf, ProcessHeader, ValuesReply, ParseParams, ReplyFits, ProcessManagement;
    var s := Stopped(r.(eorStop := true), rec, rest);
    HeaderUnderstood(r.(eorStop := true), rec, rest);
    ValuesProcessed(s, rec, rest);
  }

  /** What the client reads from r is what the effect says, and then what it reads from the state the
      effect leaves. */
  ghost predicate Explains(r: Reader, e: Effect, rest: Bytes) {
    match e
    case Ends(fin) => Drain(r) == ([], fin) && fin.closed
    case Delivers(data, s) =>
      var (more, fin) := Drain(s);
      Idle(s) && s.p == rest && Drain(r) == (data + more, fin)
  }

  lemma OneBeginRecord(r: Reader, rec: Rec, rest: Bytes)
    requires Idle(r) && rec.Encodable() && r.p == rec.Encode() + rest && rec.kind == BEGIN_REQUEST
    ensures Explains(r, RecordEffect(r, rec, rest), rest)
  {
    hide OnHeader, HeaderOf, Drain, CantMpxReply;
    RecordStarts(r, rec, rest);
    BeginHeader(r.(p := rec.content + rec.pad + rest), rec, rest);
    if rec.id != 0 && |rec.content| == 8 && |CantMpxReply(rec.id)| <= r.room {
      ContentTaken(Emit(Stopped(r, rec, rest), CantMpxReply(rec.id)).(skip := true), rec, rest);
    }
  }

  lemma OneManagementRecord(r: Reader, rec: Rec, rest: Bytes)
    requires Idle(r) && rec.Encodable() && r.p == rec.Encode() + rest
    requires rec.kind != BEGIN_REQUEST && rec.id == NULL_REQUEST_ID
    ensures Explains(r, RecordEffect(r, rec, rest), rest)
  {
    hide OnHeader, HeaderOf, Drain, UnknownReply, ValuesReply, ParseParams, ReplyFits;
    RecordStarts(r, rec, rest);
    var b := r.(p := rec.content + rec.pad + rest);
    if rec.kind == GET_VALUES {
      ValuesHeader(b, rec, rest);
      match RecordEffect(r, rec, rest) {
        case Ends(_) =>
        case Delivers(_, s) => assert [] + Drain(s).0 == Drain(s).0;
      }
    } else {
      UnknownHeader(b, rec, rest);
      if |UnknownReply(rec.kind)| <= r.room {
        ContentTaken(Emit(Stopped(r, rec, rest), UnknownReply(rec.kind)), rec, rest);
      }
    }
  }

  lemma OneStreamRecord(r: Reader, rec: Rec, rest: Bytes)
    requires Idle(r) && rec.Encodable() && r.p == rec.Encode() + rest
    requires rec.kind != BEGIN_REQUEST && rec.id != NULL_REQUEST_ID
    ensures Explains(r, RecordEffect(r, rec, rest), rest)
  {
    hide OnHeader, HeaderOf, Drain;
    RecordStarts(r, rec, rest);
    var stopped := Stopped(r, rec, rest);
    StreamHeader(r.(p := rec.content + rec.pad + rest), rec, rest);
    if rec.id != r.requestId {
      ContentTaken(stopped.(skip := true), rec, rest);
    } else if rec.kind == r.kind && rec.content != [] {
      ContentTaken(stopped, rec, rest);
    }
  }

  /** One record, whatever it is, has the effect that RecordEffect says. */
  lemma OneRecord(r: Reader, rec: Rec, rest: Bytes)
    requires Idle(r) && rec.Encodable() && r.p == rec.Encode() + rest
    ensures Explains(r, RecordEffect(r, rec, rest), rest)
  {
    hide Explains, RecordEffect;
    if rec.kind == BEGIN_REQUEST {
      OneBeginRecord(r, rec, rest);
    } else if rec.id == NULL_REQUEST_ID {
      OneManagementRecord(r, rec, rest);
    } else {
      OneStreamRecord(r, rec, rest);
    }
  }

  /** The resumable reader refines the record machine on every list of records, with anything behind it. */
  lemma {:induction false} DemuxRefinesRecords(r: Reader, rs: seq<Rec>, rest: Bytes)
    requires Idle(r) && AllEncodable(rs) && r.p == Serialize(rs, rest)
    ensures
      var (data, s, ended) := RecordsEffect(r, rs, rest);
      if ended then Drain(r) == (data, s) && s.closed
      else
        var (more, fin) := Drain(s);
        Idle(s) && s.p == rest && Drain(r) == (data + more, fin)
    decreases |rs|
  {
    hide Drain, RecordEffect;
    if rs == [] {
      assert [] + Drain(r).0 == Drain(r).0;
    } else {
      var tail := Serialize(rs[1..], rest);
      OneRecord(r, rs[0], tail);
      match RecordEffect(r, rs[0], tail) {
        case Ends(_) =>
        case Delivers(data, s) =>
          DemuxRefinesRecords(s, rs[1..], rest);
          var (more, t, ended) := RecordsEffect(s, rs[1..], rest);
          ConcatAssoc(data, more, Drain(t).0);
      }
    }
  }

  // ---------- the records a server may send while a stream is open ----------

  predicate Wanted(rec: Rec, kind: Byte, id: int) {
    rec.kind == kind && rec.id == id
  }

  /** A record of another request, whatever its type and content. */
  predicate Foreign(rec: Rec, id: int) {
    rec.kind != BEGIN_REQUEST && rec.id != id && rec.id != NULL_REQUEST_ID
  }

  /** An attempt to multiplex the connection. */
  predicate Multiplexed(rec: Rec) {
    rec.kind == BEGIN_REQUEST && rec.id != 0 && |rec.content| == 8
  }

  /** A question for variables that the library can answer: whole pairs with proper names, and not more answers than
      its array has room for. */
  predicate Query(rec: Rec) {
    && rec.kind == GET_VALUES && rec.id == NULL_REQUEST_ID
    && ParseParams(rec.content).ok && ReplyFits(ParseParams(rec.content).entries)
  }

  /** A management record of a type the library does not know. */
  predicate OddManagement(rec: Rec) {
    rec.kind != BEGIN_REQUEST && rec.kind != GET_VALUES && rec.id == NULL_REQUEST_ID
  }

  predicate Lawful(rec: Rec, kind: Byte, id: int) {
    && rec.Encodable()
    && (  (Wanted(rec, kind, id) && rec.content != []) || Foreign(rec, id) || Multiplexed(rec)
       || Query(rec) || OddManagement(rec))
  }

  predicate AllLawful(rs: seq<Rec>, kind: Byte, id: int) {
    forall i :: 0 <= i < |rs| ==> Lawful(rs[i], kind, id)
  }

  /** The FastCGI meaning of a stream: the contents of its records. */
  function Contents(rs: seq<Rec>, kind: Byte, id: int): Bytes {
    if rs == [] then [] else Due(rs[0], kind, id) + Contents(rs[1..], kind, id)
  }

  /** What one record should deliver. */
  function Due(rec: Rec, kind: Byte, id: int): Bytes {
    if Wanted(rec, kind, id) then rec.content else []
  }

  /** Whether a skip is pending behind a record, given whether one was before it. */
  function SkipAfter(rec: Rec, id: int, pending: bool): bool {
    if Foreign(rec, id) then rec.content == []
    else if rec.kind == BEGIN_REQUEST then false
    else pending && rec.content == []
  }

  /** What the library delivers for lawful records. */
  function Delivered(rs: seq<Rec>, kind: Byte, id: int, pending: bool): Bytes
    decreases |rs|
  {
    if rs == [] then []
    else DeliveredOf(rs[0], kind, id, pending) + Delivered(rs[1..], kind, id, SkipAfter(rs[0], id, pending))
  }

  /** What one record does deliver. */
  function DeliveredOf(rec: Rec, kind: Byte, id: int, pending: bool): Bytes {
    if (Wanted(rec, kind, id) || OddManagement(rec)) && !pending then rec.content else []
  }

  /** The answer to one record. */
  function Answer(rec: Rec, pending: bool): Bytes {
    if rec.kind == BEGIN_REQUEST then CantMpxReply(rec.id)
    else if rec.id != NULL_REQUEST_ID then []
    else if rec.kind == GET_VALUES then ValuesReply(if pending then [] else ParseParams(rec.content).entries)
    else UnknownReply(rec.kind)
  }

  function Answers(rs: seq<Rec>, id: int, pending: bool): Bytes
    decreases |rs|
  {
    if rs == [] then []
    else Answer(rs[0], pending) + Answers(rs[1..], id, SkipAfter(rs[0], id, pending))
  }

  function PendingAfter(rs: seq<Rec>, id: int, pending: bool): bool
    decreases |rs|
  {
    if rs == [] then pending else PendingAfter(rs[1..], id, SkipAfter(rs[0], id, pending))
  }

  /** A lawful record followed by at least one byte. */
  lemma LawfulStep(r: Reader, rec: Rec, rest: Bytes)
    requires Idle(r) && Lawful(rec, r.kind, r.requestId) && r.kind != BEGIN_REQUEST && r.requestId != 0
    requires rest != [] && |Answer(rec, r.skip)| <= r.room
    ensures
      RecordEffect(r, rec, rest) ==
        Delivers(DeliveredOf(rec, r.kind, r.requestId, r.skip),
                 Emit(r, Answer(rec, r.skip)).(p := rest, skip := SkipAfter(rec, r.requestId, r.skip)))
  {
    hide CantMpxReply, UnknownReply, ValuesReply;
    assert ParseParams([]) == Parsed([], true) && ReplyFits([]);
    if rec.kind == GET_VALUES {
      DefinedUnlessTooLarge(rec.content);
    }
    hide ParseParams, ReplyFits;
    assert r.out + [] == r.out;
    assert |rec.pad + rest| > 0;
  }

  /** Lawful records are all read, whatever the order, padding and chunking. */
  lemma {:induction false} LawfulRun(r: Reader, rs: seq<Rec>, rest: Bytes)
    requires Idle(r) && AllLawful(rs, r.kind, r.requestId) && r.kind != BEGIN_REQUEST && r.requestId != 0
    requires rest != [] && |Answers(rs, r.requestId, r.skip)| <= r.room
    ensures
      RecordsEffect(r, rs, rest) ==
        (Delivered(rs, r.kind, r.requestId, r.skip),
         Emit(r, Answers(rs, r.requestId, r.skip)).(p := rest, skip := PendingAfter(rs, r.requestId, r.skip)),
         false)
    decreases |rs|
  {
    hide RecordEffect, Answer, Lawful, SkipAfter, DeliveredOf;
    if rs == [] {
      assert r.out + [] == r.out;
    } else {
      var tail := Serialize(rs[1..], rest);
      SerializeRest(rs[1..], rest);
      LawfulStep(r, rs[0], tail);
      var s := Emit(r, Answer(rs[0], r.skip)).(p := tail, skip := SkipAfter(rs[0], r.requestId, r.skip));
      LawfulRun(s, rs[1..], rest);
      ConcatAssoc(r.out, Answer(rs[0], r.skip), Answers(rs[1..], r.requestId, s.skip));
    }
  }

  // ---------- whole streams ----------

  function EndOfStream(kind: Byte, id: int, pad: Bytes): Rec {
    Rec(kind, id, [], pad)
  }

  /** A whole stream: lawful records and then the empty record of the stream, with anything behind it.
      However the bytes arrive, the client reads the delivered contents and then meets the end, with no
      error, all replies sent and everything behind the last header unread. */
  lemma StreamDecodes(r: Reader, rs: seq<Rec>, pad: Bytes, rest: Bytes)
    requires Idle(r) && AllLawful(rs, r.kind, r.requestId) && r.kind != BEGIN_REQUEST && 0 < r.requestId < 65536
    requires |pad| <= 0xff && |Answers(rs, r.requestId, r.skip)| <= r.room
    requires r.p == Serialize(rs + [EndOfStream(r.kind, r.requestId, pad)], rest)
    ensures
      var (data, fin) := Drain(r);
      && data == Delivered(rs, r.kind, r.requestId, r.skip)
      && fin == r.(p := pad + rest, paddingLen := |pad|, closed := true,
                   out := r.out + Answers(rs, r.requestId, r.skip),
                   room := r.room - |Answers(rs, r.requestId, r.skip)|,
                   skip := PendingAfter(rs, r.requestId, r.skip))
  {
    hide Drain, RecordsEffect, Answers, Delivered;
    var end := EndOfStream(r.kind, r.requestId, pad);
    var tail := Serialize([end], rest);
    SerializeOne(end, rest);
    SerializeAppend(rs, [end], rest);
    LawfulRun(r, rs, tail);
    DemuxRefinesRecords(r, rs, tail);
    var s := RecordsEffect(r, rs, tail).1;
    OneRecord(s, end, rest);
    assert end.content + end.pad + rest == pad + rest;
    assert RecordEffect(s, end, rest) == Ends(s.(p := pad + rest, paddingLen := |pad|, closed := true));
    assert RecordsEffect(r, rs, tail).0 + [] == RecordsEffect(r, rs, tail).0;
  }

  /** No wanted content comes while a skip is pending. */
  predicate NothingLost(rs: seq<Rec>, kind: Byte, id: int, pending: bool)
    decreases |rs|
  {
    rs == [] ||
    ((Wanted(rs[0], kind, id) ==> !pending) && NothingLost(rs[1..], kind, id, SkipAfter(rs[0], id, pending)))
  }

  lemma {:induction false} SkippingOnlyLoses(rs: seq<Rec>, kind: Byte, id: int, pending: bool)
    requires kind != BEGIN_REQUEST && id != 0 && AllLawful(rs, kind, id)
    requires forall i :: 0 <= i < |rs| ==> !OddManagement(rs[i])
    ensures |Delivered(rs, kind, id, pending)| <= |Contents(rs, kind, id)|
    ensures NothingLost(rs, kind, id, pending) ==> Delivered(rs, kind, id, pending) == Contents(rs, kind, id)
    ensures !NothingLost(rs, kind, id, pending) ==> |Delivered(rs, kind, id, pending)| < |Contents(rs, kind, id)|
    decreases |rs|
  {
    hide SkipAfter, OddManagement;
    if rs != [] {
      assert Lawful(rs[0], kind, id) && !OddManagement(rs[0]);
      SkippingOnlyLoses(rs[1..], kind, id, SkipAfter(rs[0], id, pending));
    }
  }

  /** Without unknown management records, the client gets the contents of its stream exactly when no
      record with wanted content follows an empty record of another request before any nonempty record. */
  lemma ExactUnlessSkipPending(rs: seq<Rec>, kind: Byte, id: int)
    requires kind != BEGIN_REQUEST && id != 0 && AllLawful(rs, kind, id)
    requires forall i :: 0 <= i < |rs| ==> !OddManagement(rs[i])
    ensures Delivered(rs, kind, id, false) == Contents(rs, kind, id) <==> NothingLost(rs, kind, id, false)
  {
    SkippingOnlyLoses(rs, kind, id, false);
  }

  lemma {:induction false} UnknownOnlyAdds(rs: seq<Rec>, kind: Byte, id: int)
    requires kind != BEGIN_REQUEST && id != 0 && AllLawful(rs, kind, id)
    requires forall i :: 0 <= i < |rs| ==> Foreign(rs[i], id) ==> rs[i].content != []
    ensures |Contents(rs, kind, id)| <= |Delivered(rs, kind, id, false)|
    ensures (forall i :: 0 <= i < |rs| ==> OddManagement(rs[i]) ==> rs[i].content == [])
            ==> Delivered(rs, kind, id, false) == Contents(rs, kind, id)
    ensures (exists i :: 0 <= i < |rs| && OddManagement(rs[i]) && rs[i].content != [])
            ==> |Contents(rs, kind, id)| < |Delivered(rs, kind, id, false)|
    decreases |rs|
  {
    if rs != [] {
      assert Lawful(rs[0], kind, id) && !SkipAfter(rs[0], id, false);
      UnknownOnlyAdds(rs[1..], kind, id);
      if i :| 0 <= i < |rs| && OddManagement(rs[i]) && rs[i].content != [] {
        assert i > 0 ==> rs[1..][i - 1] == rs[i];
      }
    }
  }

  /** Without empty records of other requests, the client gets the contents of its stream exactly when
      every management record of an unknown type is empty: their content is answered but not consumed. */
  lemma ExactUnlessUnknownHasContent(rs: seq<Rec>, kind: Byte, id: int)
    requires kind != BEGIN_REQUEST && id != 0 && AllLawful(rs, kind, id)
    requires forall i :: 0 <= i < |rs| ==> Foreign(rs[i], id) ==> rs[i].content != []
    ensures Delivered(rs, kind, id, false) == Contents(rs, kind, id)
            <==> (forall i :: 0 <= i < |rs| ==> OddManagement(rs[i]) ==> rs[i].content == [])
  {
    UnknownOnlyAdds(rs, kind, id);
  }

  // ---------- every lawful list, record by record ----------

  /** A skip is pending before record i: an empty record of another request, and only empty ones since. */
  predicate Pending(rs: seq<Rec>, id: int, i: nat)
    requires i <= |rs|
  {
    exists j :: 0 <= j < i && Foreign(rs[j], id) && forall k :: j <= k < i ==> rs[k].content == []
  }

  /** What the records deliver, one by one. */
  function Pieces(rs: seq<Rec>, kind: Byte, id: int, pending: bool): (ps: seq<Bytes>)
    ensures |ps| == |rs|
    decreases |rs|
  {
    if rs == [] then []
    else [DeliveredOf(rs[0], kind, id, pending)] + Pieces(rs[1..], kind, id, SkipAfter(rs[0], id, pending))
  }

  function Dues(rs: seq<Rec>, kind: Byte, id: int): (ds: seq<Bytes>)
    ensures |ds| == |rs| && forall i :: 0 <= i < |rs| ==> ds[i] == Due(rs[i], kind, id)
  {
    if rs == [] then [] else [Due(rs[0], kind, id)] + Dues(rs[1..], kind, id)
  }

  function Joined(ps: seq<Bytes>): Bytes {
    if ps == [] then [] else ps[0] + Joined(ps[1..])
  }

  lemma {:induction false} DeliveredInPieces(rs: seq<Rec>, kind: Byte, id: int, pending: bool)
    ensures Delivered(rs, kind, id, pending) == Joined(Pieces(rs, kind, id, pending))
    ensures Contents(rs, kind, id) == Joined(Dues(rs, kind, id))
    decreases |rs|
  {
    hide SkipAfter, DeliveredOf, Due;
    if rs != [] {
      DeliveredInPieces(rs[1..], kind, id, SkipAfter(rs[0], id, pending));
      assert Pieces(rs, kind, id, pending)[1..] == Pieces(rs[1..], kind, id, SkipAfter(rs[0], id, pending));
      assert Dues(rs, kind, id)[1..] == Dues(rs[1..], kind, id);
    }
  }

  lemma {:induction false} PieceAt(rs: seq<Rec>, kind: Byte, id: int, pending: bool, i: nat)
    requires i < |rs|
    ensures Pieces(rs, kind, id, pending)[i] == DeliveredOf(rs[i], kind, id, PendingAfter(rs[..i], id, pending))
    decreases |rs|
  {
    hide SkipAfter, DeliveredOf;
    if i > 0 {
      assert rs[..i][0] == rs[0] && rs[..i][1..] == rs[1..][..i - 1];
      PieceAt(rs[1..], kind, id, SkipAfter(rs[0], id, pending), i - 1);
    }
  }

  lemma {:induction false} PendingAppend(a: seq<Rec>, rec: Rec, id: int, pending: bool)
    ensures PendingAfter(a + [rec], id, pending) == SkipAfter(rec, id, PendingAfter(a, id, pending))
    decreases |a|
  {
    hide SkipAfter;
    if a == [] {
      assert (a + [rec])[1..] == [];
    } else {
      assert (a + [rec])[0] == a[0] && (a + [rec])[1..] == a[1..] + [rec];
      PendingAppend(a[1..], rec, id, SkipAfter(a[0], id, pending));
    }
  }

  lemma PendingStep(rs: seq<Rec>, id: int, i: nat)
    requires 0 < i <= |rs|
    ensures Pending(rs, id, i) <==> rs[i - 1].content == [] && (Foreign(rs[i - 1], id) || Pending(rs, id, i - 1))
  {
    hide Foreign;
    if rs[i - 1].content == [] && Pending(rs, id, i - 1) {
      var j :| 0 <= j < i - 1 && Foreign(rs[j], id) && forall k :: j <= k < i - 1 ==> rs[k].content == [];
      assert Foreign(rs[j], id) && forall k :: j <= k < i ==> rs[k].content == [];
    }
    if rs[i - 1].content == [] && Foreign(rs[i - 1], id) {
      assert forall k :: i - 1 <= k < i ==> rs[k].content == [];
    }
    if Pending(rs, id, i) {
      var j :| 0 <= j < i && Foreign(rs[j], id) && forall k :: j <= k < i ==> rs[k].content == [];
      assert rs[i - 1].content == [];
    }
  }

  lemma {:induction false} PendingMeans(rs: seq<Rec>, kind: Byte, id: int, i: nat)
    requires i <= |rs| && AllLawful(rs, kind, id) && kind != BEGIN_REQUEST
    ensures PendingAfter(rs[..i], id, false) <==> Pending(rs, id, i)
    decreases i
  {
    if i > 0 {
      PendingMeans(rs, kind, id, i - 1);
      PendingAppend(rs[..i - 1], rs[i - 1], id, false);
      assert rs[..i] == rs[..i - 1] + [rs[i - 1]];
      assert Lawful(rs[i - 1], kind, id);
      PendingStep(rs, id, i);
      hide PendingAfter, Pending, ReplyFits, ParseParams;
    }
  }

  /** For every lawful list: a record delivers what it should if and only if it is not a wanted one met by a pending
      skip, and not a nonempty management record of unknown type met by none. The client gets the pieces, and should
      get the dues, in order. */
  lemma ExactRecordByRecord(rs: seq<Rec>, kind: Byte, id: int)
    requires kind != BEGIN_REQUEST && id != 0 && AllLawful(rs, kind, id)
    ensures Delivered(rs, kind, id, false) == Joined(Pieces(rs, kind, id, false))
    ensures Contents(rs, kind, id) == Joined(Dues(rs, kind, id))
    ensures forall i :: 0 <= i < |rs| ==>
              (Pieces(rs, kind, id, false)[i] == Dues(rs, kind, id)[i] <==>
                 && (Wanted(rs[i], kind, id) ==> !Pending(rs, id, i))
                 && (OddManagement(rs[i]) && rs[i].content != [] ==> Pending(rs, id, i)))
  {
    DeliveredInPieces(rs, kind, id, false);
    forall i | 0 <= i < |rs|
      ensures Pieces(rs, kind, id, false)[i] == Dues(rs, kind, id)[i] <==>
                && (Wanted(rs[i], kind, id) ==> !Pending(rs, id, i))
                && (OddManagement(rs[i]) && rs[i].content != [] ==> Pending(rs, id, i))
    {
      PieceAt(rs, kind, id, false, i);
      PendingMeans(rs, kind, id, i);
      assert Lawful(rs[i], kind, id);
      hide Pending, PendingAfter, Pieces;
    }
  }

  /** The contents of a stream arrive for any chunking, any padding, any nonempty records of other requests,
      any attempts to multiplex and any queries in between. */
  lemma StreamContentsArrive(r: Reader, rs: seq<Rec>, pad: Bytes, rest: Bytes)
    requires Idle(r) && !r.skip && r.kind != BEGIN_REQUEST && 0 < r.requestId < 65536
    requires AllLawful(rs, r.kind, r.requestId)
    requires forall i :: 0 <= i < |rs| ==>
               !OddManagement(rs[i]) && (Foreign(rs[i], r.requestId) ==> rs[i].content != [])
    requires |pad| <= 0xff && |Answers(rs, r.requestId, false)| <= r.room
    requires r.p == Serialize(rs + [EndOfStream(r.kind, r.requestId, pad)], rest)
    ensures
      var (data, fin) := Drain(r);
      && data == Contents(rs, r.kind, r.requestId)
      && fin.closed && !fin.aborted && fin.errno == 0 && fin.p == pad + rest
      && fin.out == r.out + Answers(rs, r.requestId, false)
  {
    hide Drain, Answers;
    StreamDecodes(r, rs, pad, rest);
    UnknownOnlyAdds(rs, r.kind, r.requestId);
  }

  // ---------- the exceptions, concretely ----------

  /** An empty record of request 2 makes the reader of request 1 lose its next record. */
  lemma EmptyForeignRecordLosesTheNext()
    ensures var rs := [Rec(STDIN, 2, [], []), Rec(STDIN, 1, [65], [])];
            && AllLawful(rs, STDIN, 1)
            && Delivered(rs, STDIN, 1, false) == [] && Contents(rs, STDIN, 1) == [65]
  {
    var a, b := Rec(STDIN, 2, [], []), Rec(STDIN, 1, [65], []);
    assert [a, b][1..] == [b];
    assert [b][1..] == [];
    assert Contents([b][1..], STDIN, 1) == [];
    assert Contents([b], STDIN, 1) == [65];
    assert SkipAfter(a, 1, false);
    assert Delivered([b][1..], STDIN, 1, false) == [];
    assert Delivered([b], STDIN, 1, true) == [];
  }

  /** The content of a management record of unknown type reaches the client as stream data. */
  lemma UnknownManagementContentLeaks()
    ensures var rs := [Rec(UNKNOWN_TYPE, 0, [65], [])];
            && AllLawful(rs, STDIN, 1)
            && Delivered(rs, STDIN, 1, false) == [65] && Contents(rs, STDIN, 1) == []
  {
    var a := Rec(UNKNOWN_TYPE, 0, [65], []);
    assert [a][1..] == [];
  }

  /** A query at the very end of the bytes received so far is answered exactly when a byte follows its
      content: the reader looks for one more byte before it sees the end of the record. */
  lemma QueryNeedsAnotherByte(r: Reader, rec: Rec, rest: Bytes)
    requires Idle(r) && !r.skip && Query(rec) && rec.Encodable() && r.p == rec.Encode() + rest
    requires |ValuesReply(ParseParams(rec.content).entries)| <= r.room
    ensures RecordEffect(r, rec, rest).Delivers? <==> rec.pad + rest != []
    ensures rec.pad + rest == [] ==> Drain(r).1.out == r.out && Drain(r).1.errno != 0
    ensures rec.pad + rest != [] ==>
              RecordEffect(r, rec, rest).r.out == r.out + ValuesReply(ParseParams(rec.content).entries)
  {
    hide Drain, ParseParams, ValuesReply, ReplyFits;
    DefinedUnlessTooLarge(rec.content);
    OneRecord(r, rec, rest);
  }

  /** A query followed by a byte, with room for the answer, is survived exactly when every pair it declares has a size
      that is an int and, its pairs being whole, every name ends at an '=' and the answers fit the array. */
  lemma QueryIsSurvived(r: Reader, rec: Rec, rest: Bytes)
    requires Idle(r) && !r.skip && rec.kind == GET_VALUES && rec.id == NULL_REQUEST_ID && rec.Encodable()
    requires rec.pad + rest != []
    requires |ValuesReply(ParseParams(rec.content).entries)| <= r.room
    ensures RecordEffect(r, rec, rest) == Ends(Dead()) <==>
              || ReachesTooLarge(rec.content)
              || (ParseParams(rec.content).ok && !ReplyFits(ParseParams(rec.content).entries))
    ensures RecordEffect(r, rec, rest).Delivers? <==> Query(rec)
  {
    hide ParseParams, ValuesReply, ReplyFits, ReachesTooLarge;
    DefinedUnlessTooLarge(rec.content);
  }

  /** The pair that asks for FCGI_MAX_CONNS. */
  const MAX_CONNS_PAIR: Pair := Pair(MAX_CONNS, [], false, false)

  lemma MaxConnsAnswer()
    ensures MAX_CONNS_PAIR.Encodable() && NameOf(MAX_CONNS_PAIR.Entry()) == MAX_CONNS
    ensures |AnswerTo(MAX_CONNS_PAIR.Entry())| == 17
  {
    NameBeforeEquals(MAX_CONNS, []);
  }

  lemma {:induction false} NameBeforeEquals(name: Bytes, value: Bytes)
    requires EQUALS !in name
    ensures NameOf(MakeEntry(name, value)) == name
  {
    var e := MakeEntry(name, value);
    if name == [] {
      assert e[0] == EQUALS;
    } else {
      NameBeforeEquals(name[1..], value);
      assert e[0] == name[0] && e[1..] == MakeEntry(name[1..], value);
    }
  }

  /** Asking four times for FCGI_MAX_CONNS, in 64 bytes of content, runs over the array of 64 bytes; asking three times
      does not. */
  lemma FourNamesOverrun()
    ensures var content := EncodePairs([MAX_CONNS_PAIR, MAX_CONNS_PAIR, MAX_CONNS_PAIR, MAX_CONNS_PAIR], []);
            && |content| == 64 && ParseParams(content).ok && !ReplyFits(ParseParams(content).entries)
            && !Query(Rec(GET_VALUES, NULL_REQUEST_ID, content, []))
    ensures var content := EncodePairs([MAX_CONNS_PAIR, MAX_CONNS_PAIR, MAX_CONNS_PAIR], []);
            Query(Rec(GET_VALUES, NULL_REQUEST_ID, content, []))
  {
    MaxConnsAnswer();
    hide AnswerTo, NameOf;
    var p := MAX_CONNS_PAIR;
    var one, two, three, four := [p], [p, p], [p, p, p], [p, p, p, p];
    assert four[1..] == three && three[1..] == two && two[1..] == one && one[1..] == [];
    DecodeInvertsEncode(three);
    DecodeInvertsEncode(four);
    FourSizes();
    hide ParseParams;
  }

  lemma FourSizes()
    ensures
      var p := MAX_CONNS_PAIR;
      && p.Encodable()
      && |EncodePairs([p, p, p, p], [])| == 64
      && |ValuesBody(Entries([p, p, p]))| == 51 && |ValuesBody(Entries([p, p, p, p]))| == 68
      && NamesEnd(Entries([p, p, p]))
  {
    MaxConnsAnswer();
    hide AnswerTo, NameOf;
    var p := MAX_CONNS_PAIR;
    var one, two, three, four := [p], [p, p], [p, p, p], [p, p, p, p];
    assert four[1..] == three && three[1..] == two && two[1..] == one && one[1..] == [];
    assert |EncodePairs(one[1..], [])| == 0 && |EncodePairs(one, [])| == 16 && |EncodePairs(two, [])| == 32;
    assert |EncodePairs(three, [])| == 48;
    var e := p.Entry();
    assert Entries(one) == [e] && Entries(two) == [e, e];
    assert Entries(three) == [e, e, e] && Entries(four) == [e, e, e, e];
    BodySizes(e);
  }

  lemma BodySizes(e: Bytes)
    ensures |ValuesBody([e, e, e])| == 3 * |AnswerTo(e)| && |ValuesBody([e, e, e, e])| == 4 * |AnswerTo(e)|
  {
    hide AnswerTo;
    assert [e, e, e, e][1..] == [e, e, e] && [e, e, e][1..] == [e, e] && [e, e][1..] == [e] && [e][1..] == [];
    assert |ValuesBody([e][1..])| == 0 && |ValuesBody([e])| == |AnswerTo(e)|;
    assert |ValuesBody([e, e])| == 2 * |AnswerTo(e)|;
  }

  /** A NUL in a name ends the search for its '=' too early. */
  lemma NulNameAborts()
    ensures var content := EncodePairs([Pair([65, 0], [], false, false)], []);
            ParseParams(content).ok && !ReplyFits(ParseParams(content).entries)
  {
    var p := Pair([65, 0], [], false, false);
    assert [p][1..] == [];
    DecodeInvertsEncode([p]);
    NameBeforeEquals([65, 0], []);
    assert Entries([p])[0] == p.Entry();
    hide ParseParams;
  }
}
