/** What a FastCGI writer does, as functions on values: buffered content is put into records that are
    padded to a multiple of eight bytes, and closing the last of a request's writers ends the request. */
module FcgiWriterSpec {
  import opened FcgiWire

  /** What the writers of one request share. */
  datatype Shared = Shared(
    requestId: int,
    nWriters: int,
    appStatus: int,
    out: Bytes,         // bytes written to the connection so far
    room: nat,          // bytes the connection will still accept
    writeErrno: int)    // OS_Errno once it does not

  datatype Writer = Writer(
    kind: Byte,
    size: nat,          // bufflen
    buf: Bytes,         // content behind the reserved header, or everything in raw mode
    any: bool,          // isAnythingWritten
    raw: bool,          // rawWrite
    closed: bool,       // isClosed
    fclosed: bool,      // wasFCloseCalled
    errno: int)         // FCGI_errno
  {
    /** Bytes buf may hold: a header slot is reserved except in raw mode. */
    function Capacity(): int {
      if raw then size else size - HEADER_LEN
    }

    predicate Full() {
      fclosed || |buf| >= Capacity()
    }

    /** What NewStream and every operation afterwards guarantee about the buffer. */
    predicate Sound() {
      && size % 8 == 0 && 24 <= size <= MAX_LENGTH + 1
      && (!fclosed ==> |buf| <= Capacity())
      && (fclosed ==> closed && raw)
    }
  }

  datatype Result = Result(ok: bool, w: Writer, s: Shared)

  /** The buffer length NewStream settles on; a misaligned allocation loses eight bytes. */
  function BufferSize(bufflen: int, misaligned: bool): (n: nat)
    ensures n % 8 == 0 && 24 <= n <= MAX_LENGTH + 1
    ensures !misaligned && 32 <= bufflen <= MAX_LENGTH + 1 ==> bufflen <= n < bufflen + 8
  {
    var wanted := if bufflen < 32 then 32 else if bufflen > MAX_LENGTH + 1 then MAX_LENGTH + 1 else bufflen;
    AlignInt8(wanted) - if misaligned then 8 else 0
  }

  function SetError(w: Writer, e: int): Writer {
    w.(errno := if w.errno == 0 then e else w.errno, closed := true)
  }

  function PaddingFor(n: nat): (k: nat)
    ensures k < 8 && (n + k) % 8 == 0
  {
    AlignInt8(n) - n
  }

  /** The record that encapsulates the buffered content. */
  function ContentRecord(w: Writer, s: Shared): Rec {
    Rec(w.kind, s.requestId, w.buf, Zeros(PaddingFor(|w.buf|)))
  }

  /** The bytes in the buffer when it is written: in raw mode as they are, else one record. */
  function Outgoing(w: Writer, s: Shared): Bytes {
    if w.raw || |w.buf| == 0 then w.buf else ContentRecord(w, s).Encode()
  }

  /** The buffer when writing it failed: padded, but kept. */
  function Padded(w: Writer): Bytes {
    if w.raw then w.buf else w.buf + Zeros(PaddingFor(|w.buf|))
  }

  /** EmptyBuffProc without closing. */
  function Flush(w: Writer, s: Shared): (res: (Writer, Shared))
  {
    var bs := Outgoing(w, s);
    if |bs| == 0 then (w, s)
    else if |bs| <= s.room then
      (w.(buf := [], any := true), s.(out := s.out + bs, room := s.room - |bs|))
    else
      (SetError(w.(buf := Padded(w), any := true), s.writeErrno), s.(out := s.out + bs[..s.room], room := 0))
  }

  /** FCGX_PutChar. */
  function PutChar(w: Writer, s: Shared, c: Byte): Result {
    if !w.Full() then Result(true, w.(buf := w.buf + [c]), s)
    else if w.closed then Result(false, w, s)
    else
      var (w1, s1) := Flush(w, s);
      if !w1.Full() then Result(true, w1.(buf := w1.buf + [c]), s1) else Result(false, w1, s1)
  }

  /** FCGX_PutStr: FCGX_PutChar for each byte until one fails. */
  function PutStr(w: Writer, s: Shared, bs: Bytes): Result
    decreases |bs|
  {
    if |bs| == 0 then Result(true, w, s)
    else
      var r := PutChar(w, s, bs[0]);
      if !r.ok then r else PutStr(r.w, r.s, bs[1..])
  }

  /** FCGX_FFlush. */
  function FFlush(w: Writer, s: Shared): Result {
    if w.closed then Result(true, w, s)
    else
      var (w1, s1) := Flush(w, s);
      Result(!w1.closed, w1, s1)
  }

  /** No end-of-stream record for an error stream to which nothing was ever written. */
  predicate NeedsEof(w: Writer) {
    w.kind != STDERR || |w.buf| > 0 || w.any
  }

  function EofRecord(w: Writer, s: Shared): Rec {
    Rec(w.kind, s.requestId, [], [])
  }

  function EndRequestRecord(s: Shared): Rec {
    Rec(END_REQUEST, s.requestId, MakeEndRequestBody(s.appStatus, REQUEST_COMPLETE), [])
  }

  /** WriteCloseRecords. */
  function WriteCloseRecords(w: Writer, s: Shared): (res: (Writer, Shared))
  {
    var r := if NeedsEof(w) then PutStr(w.(raw := true), s, EofRecord(w, s).Encode())
             else Result(true, w.(raw := true), s);
    var t := if r.s.nWriters == 1 then PutStr(r.w, r.s, EndRequestRecord(s).Encode()) else r;
    (t.w, t.s.(nWriters := t.s.nWriters - 1))
  }

  /** EmptyBuffProc with doClose: the encapsulated content stays in the buffer while the closing
      records are added in raw mode. */
  function FlushAndClose(w: Writer, s: Shared): (res: (Writer, Shared))
  {
    var (w1, s1) := WriteCloseRecords(w.(buf := Outgoing(w, s)), s);
    Flush(w1, s1)
  }

  /** FCGX_FClose. */
  function FClose(w: Writer, s: Shared): Result {
    if w.fclosed then Result(w.errno == 0, w, s)
    else
      var (w1, s1) := FlushAndClose(w, s);
      Result(w1.errno == 0, w1.(fclosed := true, closed := true), s1)
  }
}
