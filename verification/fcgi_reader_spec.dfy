/** What a FastCGI reader does, as functions on values. A Reader value holds everything that
    decides its future: the bytes not yet handed to the client (buffered or still on the wire), the
    position inside the current record and the request it serves. How the wire is cut into
    reads is not part of it. */
module FcgiReaderSpec {
  import opened Common
  import opened FcgiWire
  import opened FcgiParams

  datatype Reader = Reader(
    p: Bytes,           // unread bytes, buffered and still to come
    readErrno: int,     // what OS_Read reports behind p: 0 for end of file, else OS_Errno
    out: Bytes,         // bytes written to the connection so far
    room: nat,          // bytes the connection will still accept
    writeErrno: int,    // OS_Errno once it does not
    kind: Byte,         // data->type
    requestId: int,
    begun: bool,        // isBeginProcessed
    role: int,
    keep: bool,         // keepConnection
    eorStop: bool,
    skip: bool,
    contentLen: nat,    // content bytes of the current record not yet read by the client
    paddingLen: nat,
    closed: bool,       // isClosed
    errno: int,         // FCGI_errno
    aborted: bool)      // the library has left defined behaviour

  /** Nothing is known any more: an allocation size has overflowed, or bytes were written outside of an object. All
      such states are one value, in which nothing happens. */
  function Dead(): Reader {
    Reader([], 0, [], 0, 0, 0, 0, true, 0, false, false, false, 0, 0, true, -1, true)
  }

  function SetError(r: Reader, e: int): Reader {
    r.(errno := if r.errno == 0 then e else r.errno, closed := true)
  }

  /** OS_Read returned no bytes. */
  function Starve(r: Reader): Reader {
    SetError(r.(p := []), if r.readErrno == 0 then PROTOCOL_ERROR else r.readErrno)
  }

  /** write_it_all: as much as the connection accepts gets out. */
  function Emit(r: Reader, bs: Bytes): Reader {
    if |bs| <= r.room then r.(out := r.out + bs, room := r.room - |bs|)
    else r.(out := r.out + bs[..r.room], room := 0)
  }

  function Min(a: nat, b: nat): nat {
    if a <= b then a else b
  }

  function DropContent(r: Reader): (s: Reader)
    ensures |s.p| <= |r.p|
  {
    var n := Min(r.contentLen, |r.p|);
    r.(p := r.p[n..], contentLen := r.contentLen - n, skip := r.skip && n < r.contentLen)
  }

  function DropPadding(r: Reader): (s: Reader)
    ensures |s.p| <= |r.p|
  {
    var n := Min(r.paddingLen, |r.p|);
    r.(p := r.p[n..], paddingLen := r.paddingLen - n)
  }

  /** The part of FillBuffProc's loop below the content block. */
  function PastContent(r: Reader): (s: Reader)
    ensures |s.p| <= |r.p|
  {
    if r.contentLen > 0 then Starve(r)
    else
      var s := DropPadding(r);
      if s.paddingLen > 0 then Starve(s) else s
  }

  /** From the top of the loop: stops with content to deliver, starved, or between records. */
  function ToBoundary(r: Reader): (s: Reader)
    ensures |s.p| <= |r.p|
  {
    if |r.p| == 0 then Starve(r)
    else if r.contentLen > 0 then
      if !r.skip then r else PastContent(DropContent(r))
    else PastContent(r)
  }

  // ---------- inside one record: eorStop set ----------

  /** FillBuffProc with eorStop: the end of the record looks like the end of the stream. */
  function AdvanceEor(r: Reader): (s: Reader)
    ensures |s.p| <= |r.p|
  {
    var s := ToBoundary(r);
    if s.closed || s.contentLen > 0 then s else s.(closed := true)
  }

  /** All bytes a client of the eorStop stream gets, and the state it ends in. */
  function EorContent(r: Reader): (res: (Bytes, Reader))
    ensures |res.1.p| <= |r.p|
  {
    if r.closed then ([], r)
    else if |r.p| > 0 && r.contentLen > 0 && !r.skip then
      var n := Min(r.contentLen, |r.p|);
      (r.p[..n], AdvanceEor(r.(p := r.p[n..], contentLen := r.contentLen - n)))
    else ([], AdvanceEor(r))
  }

  // ---------- headers ----------

  datatype Status = StreamRecord | Skip | BeginRecord | MgmtRecord | Failed(code: int) | Aborted

  function NameOf(entry: Bytes): (n: Bytes)
  {
    if entry == [] || entry[0] == EQUALS then [] else [entry[0]] + NameOf(entry[1..])
  }

  const MAX_CONNS: Bytes := [70, 67, 71, 73, 95, 77, 65, 88, 95, 67, 79, 78, 78, 83]
  const MAX_REQS: Bytes := [70, 67, 71, 73, 95, 77, 65, 88, 95, 82, 69, 81, 83]
  const MPXS_CONNS: Bytes := [70, 67, 71, 73, 95, 77, 80, 88, 83, 95, 67, 79, 78, 78, 83]

  /** The decimal digit answered for a variable name, if the library knows it. */
  function KnownValue(name: Bytes): Option<Byte> {
    if name == MAX_CONNS then Some(49)
    else if name == MAX_REQS then Some(49)
    else if name == MPXS_CONNS then Some(48)
    else None
  }

  /** The answer to one variable: a name-value pair if the library knows it. */
  function AnswerTo(entry: Bytes): Bytes {
    var name := NameOf(entry);
    match KnownValue(name)
    case None => []
    case Some(v) => [|name| % 256, 1] + name + [v]
  }

  function ValuesBody(entries: seq<Bytes>): Bytes {
    if entries == [] then [] else AnswerTo(entries[0]) + ValuesBody(entries[1..])
  }

  /** Size of the array in which the reply is built. */
  const RESPONSE_SIZE: nat := 64

  /** Every name ends at an '=': with a NUL before it, strchr finds none and the library writes through NULL. */
  predicate NamesEnd(entries: seq<Bytes>) {
    forall i :: 0 <= i < |entries| ==> 0 !in NameOf(entries[i])
  }

  /** The header, the answers and the NUL that sprintf puts behind them stay within the array. */
  predicate ReplyFits(entries: seq<Bytes>) {
    NamesEnd(entries) && HEADER_LEN + |ValuesBody(entries)| + 1 <= RESPONSE_SIZE
  }

  lemma NothingAnswered(entries: seq<Bytes>)
    ensures ValuesBody(entries[..0]) == [] && NamesEnd(entries[..0])
  {
  }

  lemma {:induction false} ValuesBodyAppend(a: seq<Bytes>, b: seq<Bytes>)
    ensures ValuesBody(a + b) == ValuesBody(a) + ValuesBody(b)
  {
    hide AnswerTo;
    if a == [] {
      assert a + b == b;
    } else {
      ValuesBodyAppend(a[1..], b);
      assert (a + b)[0] == a[0] && (a + b)[1..] == a[1..] + b;
      ConcatAssoc(AnswerTo(a[0]), ValuesBody(a[1..]), ValuesBody(b));
    }
  }

  /** One more variable, answered behind the others if it is known. */
  lemma AnsweredOneMore(entries: seq<Bytes>, n: nat)
    requires n < |entries|
    ensures
      && ValuesBody(entries[..n + 1]) == ValuesBody(entries[..n]) + AnswerTo(entries[n])
      && |ValuesBody(entries[..n + 1])| <= |ValuesBody(entries)|
      && (NamesEnd(entries[..n + 1]) <==> NamesEnd(entries[..n]) && 0 !in NameOf(entries[n]))
      && (NamesEnd(entries) ==> NamesEnd(entries[..n + 1]))
  {
    hide AnswerTo;
    var one := [entries[n]];
    assert entries[..n + 1] == entries[..n] + one;
    ValuesBodyAppend(entries[..n], one);
    assert one[1..] == [] && ValuesBody(one) == AnswerTo(entries[n]) + ValuesBody(one[1..]);
    assert AnswerTo(entries[n]) + [] == AnswerTo(entries[n]);
    assert entries == entries[..n + 1] + entries[n + 1..];
    ValuesBodyAppend(entries[..n + 1], entries[n + 1..]);
  }

  function ValuesReply(entries: seq<Bytes>): Bytes {
    var body := ValuesBody(entries);
    var padding := AlignInt8(|body|) - |body|;
    MakeHeader(GET_VALUES_RESULT, NULL_REQUEST_ID, |body|, padding) + body + Zeros(padding)
  }

  function UnknownReply(kind: Byte): Bytes {
    MakeHeader(UNKNOWN_TYPE, NULL_REQUEST_ID, 8, 0) + MakeUnknownTypeBody(kind)
  }

  function CantMpxReply(requestId: int): Bytes {
    MakeHeader(END_REQUEST, requestId, 8, 0) + MakeEndRequestBody(0, CANT_MPX_CONN)
  }

  /** Sends a reply; a write error turns the status into -1. */
  function Reply(r: Reader, bs: Bytes, status: Status): (Status, Reader) {
    if |bs| <= r.room then (status, Emit(r, bs))
    else (Failed(-1), SetError(Emit(r, bs), r.writeErrno))
  }

  /** ReadParams on a stream that delivers bs and ends as fin. */
  function ReadParamsEnd(bs: Bytes, fin: Reader): Reader {
    if ParseParams(bs).overflow then Dead()
    else if ParseParams(bs).ok then fin
    else SetError(fin, PARAMS_ERROR)
  }

  /** Whether the end is known. */
  lemma ReadParamsAborts(bs: Bytes, fin: Reader)
    ensures ReadParamsEnd(bs, fin).aborted <==> fin.aborted || ParseParams(bs).overflow
  {
    hide ParseParams;
  }

  function ProcessManagement(kind: Byte, r: Reader): (res: (Status, Reader))
    ensures |res.1.p| <= |r.p|
  {
    if kind == GET_VALUES then
      var (bs, fin) := EorContent(r);
      var s := ReadParamsEnd(bs, fin);
      if s.aborted then (Aborted, Dead())
      else if s.errno != 0 || s.contentLen != 0 then (Failed(PROTOCOL_ERROR), s)
      else if !ReplyFits(ParseParams(bs).entries) then (Aborted, Dead())
      else Reply(s, ValuesReply(ParseParams(bs).entries), MgmtRecord)
    else Reply(r, UnknownReply(kind), MgmtRecord)
  }

  /** FCGX_GetStr of the 8 content bytes of a BEGIN_REQUEST record. */
  function BeginBody(r: Reader): (res: (Bytes, Reader))
    requires r.contentLen == 8
    ensures |res.1.p| <= |r.p|
  {
    if |r.p| == 0 then ([], Starve(r))
    else if r.skip then ([], AdvanceEor(r))
    else if |r.p| < 8 then (r.p, Starve(r.(p := [], contentLen := 8 - |r.p|)))
    else (r.p[..8], r.(p := r.p[8..], contentLen := 0))
  }

  function ProcessBegin(requestId: int, r: Reader): (res: (Status, Reader))
    ensures |res.1.p| <= |r.p|
  {
    if requestId == 0 || r.contentLen != 8 then (Failed(PROTOCOL_ERROR), r)
    else if r.begun then Reply(r, CantMpxReply(requestId), Skip)
    else
      var (body, s) := BeginBody(r.(requestId := requestId));
      if |body| != 8 then (Failed(PROTOCOL_ERROR), s)
      else (BeginRecord, s.(keep := body[2] % 2 == 1, role := (body[0] as int) * 256 + body[1], begun := true))
  }

  function ProcessHeader(h: Bytes, r: Reader): (res: (Status, Reader))
    requires |h| == HEADER_LEN
    ensures |res.1.p| <= |r.p|
  {
    if h[0] != VERSION_1 then (Failed(UNSUPPORTED_VERSION), r)
    else
      var id := HeaderRequestId(h);
      var s := r.(contentLen := HeaderContentLength(h), paddingLen := h[6]);
      if h[1] == BEGIN_REQUEST then ProcessBegin(id, s)
      else if id == NULL_REQUEST_ID then ProcessManagement(h[1], s)
      else if id != s.requestId then (Skip, s)
      else if h[1] != s.kind then (Failed(PROTOCOL_ERROR), s)
      else (StreamRecord, s)
  }

  /** Whether FillBuffProc returns after a header, and the state then. */
  datatype Next = Return(r: Reader) | Loop(r: Reader)

  function AfterStatus(status: Status, s: Reader): (n: Next)
    ensures |n.r.p| <= |s.p| && (!s.eorStop ==> !n.r.eorStop)
  {
    match status
    case StreamRecord => if s.contentLen == 0 then Return(s.(closed := true)) else Loop(s)
    case Skip => Loop(s.(skip := true))
    case BeginRecord => Return(s)
    case MgmtRecord => Loop(s)
    case Failed(code) => Return(SetError(s, code))
    case Aborted => Return(Dead())
  }

  function OnHeader(h: Bytes, r: Reader): (n: Next)
    requires |h| == HEADER_LEN
    ensures |n.r.p| <= |r.p|
    ensures !n.r.eorStop
  {
    var (status, t) := ProcessHeader(h, r.(eorStop := true));
    AfterStatus(status, t.(eorStop := false, closed := false))
  }

  // ---------- whole records: eorStop clear ----------

  /** From a stopping point of ToBoundary to where FillBuffProc returns. */
  function FromBoundary(b: Reader): (s: Reader)
    ensures |s.p| <= |b.p|
    decreases |b.p|
  {
    if b.closed || b.contentLen > 0 then b
    else if |b.p| < HEADER_LEN then Starve(b)
    else
      match OnHeader(b.p[..HEADER_LEN], b.(p := b.p[HEADER_LEN..]))
      case Return(s) => s
      case Loop(s) => FromBoundary(ToBoundary(s))
  }

  /** FillBuffProc. */
  function Advance(r: Reader): (s: Reader)
    ensures |s.p| <= |r.p|
  {
    if r.eorStop then AdvanceEor(r) else FromBoundary(ToBoundary(r))
  }

  // ---------- the client's view ----------

  /** FCGX_GetChar: the next byte, if there is one, and the state afterwards. */
  function GetChar(r: Reader): (res: (Option<Byte>, Reader))
    ensures |res.1.p| <= |r.p|
    ensures res.0.Some? ==> |res.1.p| < |r.p|
  {
    if r.closed then (None, r)
    else
      var s := Advance(r);
      if s.closed || s.contentLen == 0 || |s.p| == 0 then (None, s)
      else (Some(s.p[0]), s.(p := s.p[1..], contentLen := s.contentLen - 1))
  }

  /** FCGX_GetStr: n times FCGX_GetChar, or until it gives nothing. */
  function GetStr(r: Reader, n: nat): (res: (Bytes, Reader))
    ensures |res.0| <= n
    decreases n
  {
    if n == 0 then ([], r)
    else
      match GetChar(r)
      case (None, s) => ([], s)
      case (Some(c), s) =>
        var (rest, t) := GetStr(s, n - 1);
        ([c] + rest, t)
  }

  const NEWLINE: Byte := 10

  /** The bytes FCGX_GetLine stores when it may store k of them. */
  function GetLine(r: Reader, k: nat): (res: (Bytes, Reader))
    decreases k
  {
    if k == 0 then ([], r)
    else
      match GetChar(r)
      case (None, s) => ([], s)
      case (Some(c), s) =>
        if c == NEWLINE then ([c], s)
        else
          var (rest, t) := GetLine(s, k - 1);
          ([c] + rest, t)
  }

  /** Re-initializes the reader for another stream type. */
  function SetReaderType(r: Reader, kind: Byte): Reader {
    r.(kind := kind, eorStop := false, skip := false, contentLen := 0, paddingLen := 0, closed := false)
  }

  /** Everything the client will ever read, and the state in which it meets the end. */
  function Drain(r: Reader): (res: (Bytes, Reader))
    decreases |r.p|
  {
    match GetChar(r)
    case (None, s) => ([], s)
    case (Some(c), s) =>
      var (rest, t) := Drain(s);
      ([c] + rest, t)
  }

  // ---------- progress ----------

  /** Content is there to be delivered. */
  predicate Ready(r: Reader) {
    !r.closed && r.contentLen > 0 && |r.p| > 0 && !r.skip
  }

  lemma PastContentShape(r: Reader)
    ensures var s := PastContent(r);
            && s.begun == r.begun && s.eorStop == r.eorStop && (r.closed ==> s.closed)
            && (s.closed || (s.contentLen == 0 && s.paddingLen == 0))
  {
  }

  /** ToBoundary moves inside one record: it leaves the request alone and stops with content
      ready, starved, or between records. */
  lemma ToBoundaryShape(r: Reader)
    ensures var s := ToBoundary(r);
            && s.begun == r.begun && s.eorStop == r.eorStop && (r.closed ==> s.closed)
            && (s.closed || Ready(s) || (s.contentLen == 0 && s.paddingLen == 0))
  {
    PastContentShape(r);
    PastContentShape(DropContent(r));
    hide PastContent;
  }

  lemma EorKeepsBegun(r: Reader)
    ensures AdvanceEor(r).begun == r.begun
    ensures EorContent(r).1.begun == r.begun
  {
    hide ToBoundary;
    var n := Min(r.contentLen, |r.p|);
    ToBoundaryShape(r);
    ToBoundaryShape(r.(p := r.p[n..], contentLen := r.contentLen - n));
  }

  lemma ManagementKeepsBegun(kind: Byte, r: Reader)
    ensures var (status, t) := ProcessManagement(kind, r);
            (r.begun ==> t.begun) && (status != Aborted ==> t.begun == r.begun)
            && (status == MgmtRecord || status.Failed? || status == Aborted)
  {
    hide EorContent, ParseParams, ValuesReply, UnknownReply, ReplyFits;
    EorKeepsBegun(r);
  }

  lemma BeginSetsBegun(requestId: int, r: Reader)
    ensures var (status, t) := ProcessBegin(requestId, r);
            && (r.begun ==> t.begun && status != BeginRecord)
            && (status == BeginRecord ==> t.begun && t.contentLen == 0)
            && (status == BeginRecord || status == Skip || status.Failed?)
  {
  }

  lemma HeaderKeepsBegun(h: Bytes, r: Reader)
    requires |h| == HEADER_LEN
    ensures var (status, t) := ProcessHeader(h, r);
            && (r.begun ==> t.begun)
            && (status == BeginRecord ==> !r.begun && t.begun && t.contentLen == 0)
  {
    hide ProcessManagement, ProcessBegin;
    var s := r.(contentLen := HeaderContentLength(h), paddingLen := h[6]);
    ManagementKeepsBegun(h[1], s);
    BeginSetsBegun(HeaderRequestId(h), s);
  }

  lemma StatusKeepsBegun(status: Status, s: Reader)
    requires !s.closed
    ensures var n := AfterStatus(status, s);
            && (s.begun ==> n.r.begun) && (n.Loop? ==> !n.r.closed)
            && (n.Return? ==> n.r.closed || (status == BeginRecord && n.r == s))
  {
  }

  lemma OnHeaderKeepsBegun(h: Bytes, r: Reader)
    requires |h| == HEADER_LEN
    ensures var n := OnHeader(h, r);
            && (r.begun ==> n.r.begun)
            && (n.Return? ==> n.r.closed || (!r.begun && n.r.begun && n.r.contentLen == 0))
            && (n.Loop? ==> !n.r.closed)
  {
    hide ProcessHeader, AfterStatus;
    var (status, t) := ProcessHeader(h, r.(eorStop := true));
    HeaderKeepsBegun(h, r.(eorStop := true));
    StatusKeepsBegun(status, t.(eorStop := false, closed := false));
  }

  lemma {:induction false} FromBoundaryShape(b: Reader)
    requires !b.eorStop && (b.closed || b.contentLen == 0 || Ready(b))
    ensures var s := FromBoundary(b);
            && !s.eorStop
            && (b.begun ==> s.begun)
            && (s.closed || Ready(s) || (!b.begun && s.begun && s.contentLen == 0))
    decreases |b.p|
  {
    if b.closed || b.contentLen > 0 || |b.p| < HEADER_LEN {
    } else {
      var h, r := b.p[..HEADER_LEN], b.(p := b.p[HEADER_LEN..]);
      OnHeaderKeepsBegun(h, r);
      match OnHeader(h, r) {
        case Return(_) =>
        case Loop(s) => FromBoundaryShape(ToBoundary(s));
      }
    }
  }

  lemma ReadyStays(r: Reader)
    requires Ready(r)
    ensures ToBoundary(r) == r && Advance(r) == r
  {
  }

  /** Every fill leaves an unread byte or a closed stream, unless it met the BEGIN_REQUEST of a
      request not yet begun; and filling again changes nothing. */
  lemma FillLeavesByteOrEnd(r: Reader)
    requires !r.closed
    ensures var s := Advance(r);
            && s.eorStop == r.eorStop
            && (r.begun ==> s.begun)
            && (s.closed || Ready(s) || (!r.eorStop && !r.begun && s.begun && s.contentLen == 0))
            && (Ready(s) ==> Advance(s) == s)
  {
    hide ToBoundary, FromBoundary;
    var s := Advance(r);
    ToBoundaryShape(r);
    if !r.eorStop {
      FromBoundaryShape(ToBoundary(r));
    }
    if Ready(s) {
      ReadyStays(s);
    }
  }

  // ---------- reading many bytes ----------

  lemma GetCharReady(r: Reader)
    requires Ready(r)
    ensures GetChar(r) == (Some(r.p[0]), r.(p := r.p[1..], contentLen := r.contentLen - 1))
  {
    ReadyStays(r);
    hide Advance;
  }

  /** Bytes that are ready can be taken in one piece. */
  lemma {:induction false} TakeReady(r: Reader, n: nat)
    requires !r.closed && !r.skip && n <= r.contentLen && n <= |r.p|
    ensures GetStr(r, n) == (r.p[..n], r.(p := r.p[n..], contentLen := r.contentLen - n))
    decreases n
  {
    hide GetChar;
    if n == 0 {
      assert r.p[0..] == r.p;
    } else {
      var s := r.(p := r.p[1..], contentLen := r.contentLen - 1);
      GetCharReady(r);
      TakeReady(s, n - 1);
      assert s.p[n - 1..] == r.p[n..];
      assert [r.p[0]] + s.p[..n - 1] == r.p[..n];
    }
  }

  /** Reading a + b bytes is reading a and then b, unless the end came first. */
  lemma {:induction false} GetStrSplit(r: Reader, a: nat, b: nat)
    ensures var (x, s) := GetStr(r, a);
            var (y, t) := GetStr(s, b);
            GetStr(r, a + b) == if |x| == a then (x + y, t) else (x, s)
    decreases a
  {
    hide GetChar;
    var (x, s) := GetStr(r, a);
    var (y, t) := GetStr(s, b);
    if a == 0 {
      assert x + y == y;
    } else if GetChar(r).0.Some? {
      GetStrSplit(GetChar(r).1, a - 1, b);
      var (x1, _) := GetStr(GetChar(r).1, a - 1);
      ConcatAssoc([GetChar(r).0.value], x1, y);
    }
  }

  lemma GetStrAfterFill(r: Reader, n: nat)
    requires !r.closed && n > 0 && (r.begun || r.eorStop)
    ensures GetStr(r, n) == GetStr(Advance(r), n)
    ensures Drain(r) == Drain(Advance(r))
  {
    hide Advance;
    FillLeavesByteOrEnd(r);
    assert GetChar(r) == GetChar(Advance(r));
  }

  lemma {:induction false} GetStrKeepsShape(r: Reader, n: nat)
    requires r.begun || r.eorStop
    ensures var (x, s) := GetStr(r, n);
            (s.begun || s.eorStop) && s.eorStop == r.eorStop && (|x| < n ==> s.closed)
    decreases n
  {
    hide GetChar;
    if n > 0 {
      GetCharKeeps(r);
      if GetChar(r).0.Some? {
        GetStrKeepsShape(GetChar(r).1, n - 1);
      }
    }
  }

  /** A byte read leaves the stream readable, and the end stays the end. */
  lemma GetCharKeeps(r: Reader)
    requires r.begun || r.eorStop
    ensures var (c, s) := GetChar(r);
            && (s.begun || s.eorStop) && s.eorStop == r.eorStop
            && (c.None? ==> s.closed && GetChar(s) == (None, s))
  {
    if !r.closed {
      FillLeavesByteOrEnd(r);
      hide Advance;
    }
  }

  /** GetStr takes its bytes off the front of what the client would read anyway. */
  lemma {:induction false} GetStrIsPrefixOfDrain(r: Reader, n: nat)
    requires r.begun || r.eorStop
    ensures var (x, s) := GetStr(r, n);
            var (all, fin) := Drain(r);
            var (y, t) := Drain(s);
            && all == x + y && t == fin
            && (|x| < n ==> y == [] && s == fin)
    decreases n
  {
    hide GetChar;
    var (x, s) := GetStr(r, n);
    var (y, t) := Drain(s);
    GetCharKeeps(r);
    if n == 0 {
      assert x + y == y;
    } else if GetChar(r).0.Some? {
      GetStrIsPrefixOfDrain(GetChar(r).1, n - 1);
      var (x1, _) := GetStr(GetChar(r).1, n - 1);
      ConcatAssoc([GetChar(r).0.value], x1, y);
    }
  }

  lemma ClosedGivesNothing(r: Reader, n: nat)
    requires r.closed
    ensures GetChar(r) == (None, r) && GetStr(r, n) == ([], r) && Drain(r) == ([], r)
  {
  }

  /** A line is the longest prefix of the remaining bytes that has at most k bytes and no
      newline except as its last byte. */
  lemma {:induction false} GetLineTakesLine(r: Reader, k: nat)
    requires r.begun || r.eorStop
    ensures var (line, s) := GetLine(r, k);
            var (all, fin) := Drain(r);
            var (rest, t) := Drain(s);
            && all == line + rest && t == fin && |line| <= k
            && (forall i :: 0 <= i < |line| - 1 ==> line[i] != NEWLINE)
            && (|line| == k || (|line| > 0 && line[|line| - 1] == NEWLINE) || (line == all && s == fin))
    decreases k
  {
    hide GetChar;
    var (line, s) := GetLine(r, k);
    var (rest, t) := Drain(s);
    GetCharKeeps(r);
    if k == 0 {
      assert line + rest == rest;
    } else if GetChar(r).0.Some? {
      var c, s1 := GetChar(r).0.value, GetChar(r).1;
      if c != NEWLINE {
        GetLineTakesLine(s1, k - 1);
        ConcatAssoc([c], GetLine(s1, k - 1).0, rest);
      }
    }
  }
}
