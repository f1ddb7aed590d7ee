/** The reading stream of fcgiapp.c: a byte buffer filled in OS reads of any size, with the
    record structure cut out of it in place. Every method is tied to the value functions of
    FcgiReaderSpec, in which the reads no longer appear. */
module FcgiReader {
  import opened Common
  import opened FcgiWire
  import opened FcgiParams
  import opened FcgiReaderSpec
  import opened FcgiFill
  import opened FcgiConnection

  /** How far a pass over the current record got. */
  datatype Pass = Returned | Again | Between

  class ReaderStream {
    const buff: array<Byte>
    const req: Request
    var rdNext: nat
    var stop: nat
    var buffStop: nat
    var kind: Byte
    var eorStop: bool
    var skip: bool
    var contentLen: nat
    var paddingLen: nat
    var isClosed: bool
    var errno: int
    /** The library has left defined behaviour. The real one goes on in some unknown way; this one stops. */
    var aborted: bool

    ghost predicate Indices()
      reads this
    {
      rdNext <= buffStop <= buff.Length && buff.Length > 0
    }

    /** Bytes up to stop have been handed to the client; they are content that will be
        delivered. A closed stream's stop means nothing. */
    ghost predicate Valid()
      reads this
    {
      && Indices() && (aborted ==> isClosed)
      && (!isClosed ==> rdNext <= stop <= buffStop && (rdNext < stop ==> !skip))
    }

    /** The value of the stream, counting only undelivered content. */
    ghost function Raw(): Reader
      requires Indices()
      reads this, buff, req`conn, req`requestId, req`begun, req`role, req`keep, req.conn
    {
      if aborted then Dead()
      else
        Reader(buff[rdNext..buffStop] + req.conn.incoming, req.conn.readErrno,
               req.conn.outgoing, req.conn.room, req.conn.writeErrno,
               kind, req.requestId, req.begun, req.role, req.keep,
               eorStop, skip, contentLen, paddingLen, isClosed, errno, false)
    }

    /** The value of the stream: delivered bytes count as content not yet read. */
    ghost function Abs(): Reader
      requires Valid()
      reads this, buff, req`conn, req`requestId, req`begun, req`role, req`keep, req.conn
    {
      if isClosed then Raw() else Raw().(contentLen := contentLen + (stop - rdNext))
    }

    /** NewStream for a reader. */
    constructor (req: Request, bufflen: int, kind: Byte)
      ensures Valid() && fresh(buff) && this.req == req && rdNext == stop
      ensures Abs() == Reader(req.conn.incoming, req.conn.readErrno,
                              req.conn.outgoing, req.conn.room, req.conn.writeErrno,
                              kind, req.requestId, req.begun, req.role, req.keep,
                              false, false, 0, 0, false, 0, false)
      ensures !aborted
    {
      var wanted := if bufflen < 32 then 32 else if bufflen > MAX_LENGTH + 1 then MAX_LENGTH + 1 else bufflen;
      buff := new Byte[AlignInt8(wanted)](_ => 0);
      this.req, this.kind := req, kind;
      rdNext, stop, buffStop := 0, 0, 0;
      eorStop, skip, contentLen, paddingLen := false, false, 0, 0;
      isClosed, errno, aborted := false, 0, false;
      new;
      assert buff[0..0] + req.conn.incoming == req.conn.incoming;
    }

    /** SetError. */
    method SetStreamError(e: int)
      requires Indices()
      modifies this`errno, this`isClosed
      ensures isClosed && Raw() == SetError(old(Raw()), e)
    {
      if errno == 0 {
        errno := e;
      }
      isClosed := true;
    }

    /** What the model does where the library's behaviour is undefined. */
    method Abort()
      requires Valid()
      modifies this`aborted, this`isClosed
      ensures Valid() && aborted && isClosed && Abs() == Dead()
    {
      aborted, isClosed := true, true;
    }

    /** The read at the top of FillBuffProc's loop. */
    method Refill() returns (ok: bool)
      requires Indices() && !isClosed && !aborted
      modifies this`rdNext, this`buffStop, this`isClosed, this`errno, buff, req.conn
      ensures Indices()
      ensures ok <==> old(Raw()).p != []
      ensures ok ==> rdNext < buffStop && Raw() == old(Raw())
      ensures !ok ==> isClosed && Raw() == Starve(old(Raw()))
    {
      if rdNext == buffStop {
        var count := req.conn.Read(buff);
        assert old(Raw()).p == old(req.conn.incoming);
        if count <= 0 {
          assert Raw().p == [];
          SetStreamError(if count == 0 then PROTOCOL_ERROR else req.conn.readErrno);
          return false;
        }
        rdNext := 0;
        buffStop := count;
        assert buff[0..count] == buff[..count];
      } else {
        assert old(Raw()).p[0] == buff[rdNext];
      }
      ok := true;
    }

    /** Moves the read position over n buffered bytes. */
    method Advanced(n: nat)
      requires Indices() && !aborted && n <= buffStop - rdNext
      modifies this`rdNext
      ensures Indices() && rdNext == old(rdNext) + n
      ensures n <= |old(Raw()).p|
      ensures Raw() == old(Raw()).(p := old(Raw()).p[n..])
    {
      ghost var was := buff[rdNext..buffStop];
      rdNext := rdNext + n;
      assert buff[rdNext..buffStop] == was[n..];
      assert was[n..] + req.conn.incoming == (was + req.conn.incoming)[n..];
    }

    /** FillBuffProc: supplies content bytes to the client, or closes the stream. */
    method FillBuffProc()
      requires Valid() && !isClosed && rdNext == stop
      modifies this, buff, req, req.conn
      ensures Valid() && req.conn == old(req.conn)
      ensures Abs() == Advance(old(Abs()))
      ensures eorStop == old(eorStop) && (old(req.begun) ==> req.begun) && (eorStop ==> !aborted)
      ensures old(req.begun || eorStop) ==> isClosed || rdNext < stop
      decreases if eorStop then 0 else 1, 1
    {
      hide Advance, Finish, PastContent, WithHeader;
      ghost var start := Raw();
      var header: Bytes := [];
      NoHeader(start);
      while true
        invariant Indices() && !isClosed && !aborted && req.conn == old(req.conn)
        invariant eorStop == old(eorStop) && (old(req.begun) ==> req.begun)
        invariant HeaderOpen(header, Raw())
        invariant Advance(WithHeader(header, Raw())) == Advance(start)
        decreases |Raw().p|
      {
        NoHeader(Raw());
        var pass := PassRecord(header);
        if pass == Returned {
          return;
        }
        if pass == Again {
          NoHeader(Raw());
          continue;
        }
        var done;
        header, done := ReadHeader(header);
        if done {
          return;
        }
      }
    }

    /** The loop of FillBuffProc down to the end of the current record: reads if the buffer is
        empty, then delivers or skips content and skips padding. */
    method PassRecord(header: Bytes) returns (pass: Pass)
      requires Indices() && !isClosed && !aborted && HeaderOpen(header, Raw())
      modifies this, buff, req.conn
      ensures !aborted && eorStop == old(eorStop) && req.begun == old(req.begun)
      ensures pass == Returned ==> Valid() && (isClosed || rdNext < stop)
                                   && Abs() == Advance(WithHeader(header, old(Raw())))
      ensures pass != Returned ==> Indices() && !isClosed
      ensures pass == Again ==> header == [] && |Raw().p| < |old(Raw()).p| && Advance(Raw()) == Advance(old(Raw()))
      ensures pass == Between ==>
                && contentLen == 0 && paddingLen == 0 && |Raw().p| <= |old(Raw()).p|
                && (rdNext == buffStop ==> |Raw().p| < |old(Raw()).p|)
                && Finish(WithHeader(header, Raw())) == Advance(WithHeader(header, old(Raw())))
    {
      hide Advance, Finish, PastContent, Starve, WithHeader;
      ghost var top := Raw();
      NoHeader(top);
      var ok := Refill();
      if !ok {
        Starved(header, top);
        return Returned;
      }
      if contentLen > 0 && !skip {
        Deliver();
        return Returned;
      }
      pass := PassSkipped(header);
    }

    /** PassRecord with bytes in the buffer, none of which are for the client yet. */
    method PassSkipped(header: Bytes) returns (pass: Pass)
      requires Indices() && !isClosed && !aborted && HeaderOpen(header, Raw())
      requires rdNext < buffStop && (contentLen > 0 ==> skip)
      modifies this`contentLen, this`paddingLen, this`rdNext, this`skip
      ensures Indices() && pass != Returned
      ensures pass == Again ==> header == [] && |Raw().p| < |old(Raw()).p| && Advance(Raw()) == Advance(old(Raw()))
      ensures pass == Between ==>
                && contentLen == 0 && paddingLen == 0 && |Raw().p| <= |old(Raw()).p|
                && (rdNext == buffStop ==> |Raw().p| < |old(Raw()).p|)
                && Finish(WithHeader(header, Raw())) == Advance(WithHeader(header, old(Raw())))
    {
      hide Advance, Finish, PastContent;
      NoHeader(Raw());
      if contentLen > 0 {
        SkipContent();
        if contentLen > 0 {
          return Again;
        }
        skip := false;
        NoHeader(Raw());
      } else {
        NoContentLeft(WithHeader(header, Raw()));
      }
      pass := PassPadding(header);
    }

    /** The padding part of PassRecord. */
    method PassPadding(header: Bytes) returns (pass: Pass)
      requires Indices() && !isClosed && !aborted && HeaderOpen(header, Raw()) && contentLen == 0
      modifies this`paddingLen, this`rdNext
      ensures Indices() && |Raw().p| <= |old(Raw()).p|
      ensures pass == Again || pass == Between
      ensures pass == Again ==> header == [] && (old(rdNext) < old(buffStop) ==> |Raw().p| < |old(Raw()).p|)
                                && Advance(Raw()) == Finish(PastContent(old(Raw())))
      ensures pass == Between ==>
                && paddingLen == 0 && (old(rdNext) < rdNext ==> |Raw().p| < |old(Raw()).p|)
                && Finish(WithHeader(header, Raw())) == Finish(PastContent(WithHeader(header, old(Raw()))))
    {
      hide Advance, Finish, PastContent;
      if paddingLen > 0 {
        NoHeader(Raw());
        SkipPadding();
        NoHeader(Raw());
        if paddingLen > 0 {
          return Again;
        }
      }
      BetweenRecords(WithHeader(header, Raw()));
      return Between;
    }

    /** The rest of the loop: the end of the record for an eorStop stream, else as much of the next
        header as the buffer holds, interpreted once it is complete. */
    method ReadHeader(header: Bytes) returns (longer: Bytes, done: bool)
      requires Indices() && !isClosed && !aborted && HeaderOpen(header, Raw()) && contentLen == 0 && paddingLen == 0
      modifies this, buff, req, req.conn
      ensures Indices() && req.conn == old(req.conn)
      ensures eorStop == old(eorStop) && (old(req.begun) ==> req.begun)
      ensures done ==>
                && Valid() && (eorStop ==> !aborted) && Abs() == Finish(WithHeader(header, old(Raw())))
                && (old(req.begun || eorStop) ==> isClosed)
      ensures !done ==>
                && !isClosed && !aborted && HeaderOpen(longer, Raw())
                && Advance(WithHeader(longer, Raw())) == Finish(WithHeader(header, old(Raw())))
                && |Raw().p| <= |old(Raw()).p|
                && (old(rdNext) < old(buffStop) ==> |Raw().p| < |old(Raw()).p|)
      decreases if eorStop then 0 else 1, 0
    {
      hide Advance, Finish, OnHeader;
      BetweenRecords(WithHeader(header, Raw()));
      if eorStop {
        NoHeader(Raw());
        stop := rdNext;
        isClosed := true;
        return header, true;
      }
      longer := CollectHeader(header);
      BetweenRecords(WithHeader(longer, Raw()));
      if |longer| < HEADER_LEN {
        return longer, false;
      }
      HeaderComplete(longer, Raw());
      done := Interpret(longer);
      longer := [];
      NoHeader(Raw());
    }

    /** Hands the buffered part of the content to the client. */
    method Deliver()
      requires Indices() && !isClosed && !aborted && rdNext < buffStop && contentLen > 0 && !skip
      modifies this`contentLen, this`stop
      ensures Valid() && rdNext < stop && Abs() == old(Raw()) && Advance(old(Raw())) == old(Raw())
    {
      ReadyStays(Raw());
      hide Advance;
      var count := Min(contentLen, buffStop - rdNext);
      contentLen := contentLen - count;
      stop := rdNext + count;
    }

    /** Passes over the buffered part of the content. */
    method SkipContent()
      requires Indices() && !isClosed && !aborted && rdNext < buffStop && contentLen > 0 && skip
      modifies this`contentLen, this`rdNext
      ensures Indices() && |Raw().p| < |old(Raw()).p|
      ensures if contentLen > 0 then Advance(Raw()) == Advance(old(Raw()))
              else Advance(old(Raw())) == Finish(PastContent(Raw().(skip := false)))
    {
      hide Advance, PastContent, Finish;
      var count := Min(contentLen, buffStop - rdNext);
      SkippedSome(Raw(), count);
      contentLen := contentLen - count;
      Advanced(count);
    }

    /** Passes over the buffered part of the padding. */
    method SkipPadding()
      requires Indices() && !isClosed && !aborted && contentLen == 0 && paddingLen > 0
      modifies this`paddingLen, this`rdNext
      ensures Indices() && |Raw().p| <= |old(Raw()).p|
      ensures old(rdNext) < old(buffStop) ==> |Raw().p| < |old(Raw()).p|
      ensures if paddingLen > 0 then Advance(Raw()) == Finish(PastContent(old(Raw())))
              else PastContent(Raw()) == PastContent(old(Raw()))
    {
      hide Advance, PastContent, Finish;
      var count := Min(paddingLen, buffStop - rdNext);
      PaddedSome(Raw(), count);
      paddingLen := paddingLen - count;
      Advanced(count);
    }

    /** Copies header bytes out of the buffer. */
    method CollectHeader(header: Bytes) returns (longer: Bytes)
      requires Indices() && !aborted && |header| < HEADER_LEN
      modifies this`rdNext
      ensures Indices() && |longer| <= HEADER_LEN
      ensures WithHeader(longer, Raw()) == WithHeader(header, old(Raw()))
      ensures |Raw().p| <= |old(Raw()).p|
      ensures old(rdNext) < old(buffStop) ==> |Raw().p| < |old(Raw()).p|
    {
      var count := Min(HEADER_LEN - |header|, buffStop - rdNext);
      ghost var p := Raw().p;
      longer := header + buff[rdNext..rdNext + count];
      assert buff[rdNext..rdNext + count] == p[..count];
      Advanced(count);
      assert header + p[..count] + p[count..] == header + p;
    }

    // ---------- the client's calls ----------

    /** FCGX_GetChar. */
    method GetChar() returns (c: Option<Byte>)
      requires Valid() && (req.begun || eorStop)
      modifies this, buff, req, req.conn
      ensures Valid() && req.conn == old(req.conn) && eorStop == old(eorStop) && (old(req.begun) ==> req.begun)
      ensures (c, Abs()) == FcgiReaderSpec.GetChar(old(Abs()))
      ensures var (rest, fin) := Drain(Abs());
              Drain(old(Abs())) == match c case None => ([], Abs()) case Some(x) => ([x] + rest, fin)
      ensures c.None? ==> isClosed
      ensures eorStop ==> aborted == old(aborted)
      decreases if eorStop then 0 else 1, 2
    {
      hide Advance, SetError, Starve;
      ghost var start := Abs();
      if isClosed {
        return None;
      }
      FillLeavesByteOrEnd(start);
      if rdNext != stop {
        ReadyStays(start);
      }
      if rdNext == stop {
        FillBuffProc();
        if isClosed {
          return None;
        }
      }
      var data := TakeBuffered(1);
      return Some(data[0]);
    }

    /** Copies n delivered bytes out of the buffer. */
    method TakeBuffered(n: nat) returns (data: Bytes)
      requires Valid() && !isClosed && n <= stop - rdNext
      modifies this`rdNext
      ensures Valid() && rdNext == old(rdNext) + n
      ensures n <= |old(Abs()).p| && n <= old(Abs()).contentLen
      ensures data == old(buff[rdNext..rdNext + n]) == old(Abs()).p[..n]
      ensures Abs() == old(Abs()).(p := old(Abs()).p[n..], contentLen := old(Abs()).contentLen - n)
    {
      data := buff[rdNext..rdNext + n];
      assert data == Raw().p[..n];
      Advanced(n);
    }

    /** FCGX_GetStr: the same bytes and the same state as up to n calls of FCGX_GetChar. */
    method GetStr(n: int) returns (data: Bytes)
      requires Valid() && (req.begun || eorStop)
      modifies this, buff, req, req.conn
      ensures Valid() && req.conn == old(req.conn) && eorStop == old(eorStop) && (old(req.begun) ==> req.begun)
      ensures (data, Abs()) == if n <= 0 then ([], old(Abs())) else FcgiReaderSpec.GetStr(old(Abs()), n)
      ensures var (rest, fin) := Drain(Abs());
              Drain(old(Abs())) == (data + rest, fin) && (|data| < n ==> rest == [] && Abs() == fin && isClosed)
      ensures eorStop ==> aborted == old(aborted)
      decreases if eorStop then 0 else 1, 2
    {
      hide FcgiReaderSpec.GetChar, FcgiReaderSpec.GetStr, Advance, Drain, Continues;
      ghost var start := Abs();
      if n <= 0 {
        assert [] + Drain(start).0 == Drain(start).0;
        return [];
      }
      ghost var wanted := FcgiReaderSpec.GetStr(start, n);
      GetStrIsPrefixOfDrain(start, n);
      GetStrKeepsShape(start, n);
      data := [];
      ContinuesStart(start, n);
      if isClosed {
        ContinuesEnd(data, start, n, wanted);
        return;
      }
      if n <= stop - rdNext {
        data := TakeSome(n);
        ContinuesEnd(data, Abs(), n, wanted);
        return;
      }
      while true
        invariant Valid() && req.conn == old(req.conn) && !isClosed && !old(aborted) && |data| < n
        invariant eorStop == old(eorStop) && (old(req.begun) ==> req.begun)
        invariant Continues(data, Abs(), n, wanted)
        decreases |Abs().p|, rdNext == stop
      {
        if rdNext != stop {
          ghost var here := Abs();
          var part := TakeSome(n - |data|);
          ContinuesMore(data, here, part, Abs(), n, wanted);
          data := data + part;
          if |data| == n {
            ContinuesEnd(data, Abs(), n, wanted);
            return;
          }
        }
        ContinuesFilled(data, Abs(), n, wanted);
        FillLeavesByteOrEnd(Abs());
        FillBuffProc();
        if isClosed {
          ContinuesEnd(data, Abs(), n, wanted);
          return;
        }
      }
    }

    /** Copies up to n delivered bytes out of the buffer. */
    method TakeSome(n: nat) returns (part: Bytes)
      requires Valid() && !isClosed && rdNext < stop && n > 0
      modifies this`rdNext
      ensures Valid() && |part| == Min(n, old(stop - rdNext)) && (|part| < n ==> rdNext == stop)
      ensures |Abs().p| < |old(Abs()).p|
      ensures Continues(part, Abs(), n, FcgiReaderSpec.GetStr(old(Abs()), n))
    {
      hide FcgiReaderSpec.GetStr;
      ghost var here := Abs();
      var m := Min(n, stop - rdNext);
      TakeReady(here, m);
      GetStrSplit(here, m, n - m);
      part := TakeBuffered(m);
    }

    /** FCGX_GetLine: NULL if the stream is at its end, else up to n - 1 bytes of a line. */
    method GetLine(n: int) returns (str: Option<Bytes>)
      requires Valid() && (req.begun || eorStop)
      modifies this, buff, req, req.conn
      ensures Valid() && req.conn == old(req.conn) && eorStop == old(eorStop) && (old(req.begun) ==> req.begun)
      ensures
        var (line, r) := FcgiReaderSpec.GetLine(old(Abs()), if n > 1 then n - 1 else 0);
        Abs() == r && str == if n > 1 && line == [] then None else Some(line)
    {
      hide FcgiReaderSpec.GetChar, Drain;
      var left := n - 1;
      var line: Bytes := [];
      ghost var k := if n > 1 then n - 1 else 0;
      ghost var wanted := FcgiReaderSpec.GetLine(Abs(), k);
      assert [] + wanted.0 == wanted.0;
      while left > 0
        invariant Valid() && req.conn == old(req.conn) && eorStop == old(eorStop) && (old(req.begun) ==> req.begun)
        invariant left == (if n > 1 then n - 1 - |line| else n - 1) && (n > 1 ==> left >= 0)
        invariant n <= 1 ==> line == []
        invariant LineContinues(line, Abs(), k, wanted)
        decreases left
      {
        ghost var here := Abs();
        var c := GetChar();
        if c.None? {
          assert line + [] == line;
          return if line == [] then None else Some(line);
        }
        ConcatAssoc(line, [c.value], FcgiReaderSpec.GetLine(Abs(), left - 1).0);
        line := line + [c.value];
        left := left - 1;
        if c.value == NEWLINE {
          return Some(line);
        }
      }
      assert line + [] == line;
      return Some(line);
    }

    /** SetReaderType. */
    method SetReaderType(kind: Byte)
      requires Valid() && !aborted
      modifies this
      ensures Valid() && rdNext == stop && !isClosed && !aborted
      ensures Abs() == FcgiReaderSpec.SetReaderType(old(Abs()), kind)
    {
      this.kind, eorStop, skip, contentLen, paddingLen := kind, false, false, 0, 0;
      stop := rdNext;
      isClosed := false;
    }

    /** FCGX_StartFilterData: from the end of STDIN to the start of DATA. */
    method StartFilterData() returns (rc: int)
      requires Valid() && !aborted
      modifies this
      ensures Valid() && !aborted
      ensures var r := old(Abs());
              if r.role == FILTER && r.closed && r.kind == STDIN
              then rc == 0 && Abs() == FcgiReaderSpec.SetReaderType(r, DATA)
              else rc == -1 && Raw() == SetError(old(Raw()), CALL_SEQ_ERROR)
    {
      if req.role != FILTER || !isClosed || kind != STDIN {
        SetStreamError(CALL_SEQ_ERROR);
        return -1;
      }
      SetReaderType(DATA);
      return 0;
    }

    // ---------- name-value pairs ----------

    /** SetError( stream, FCGX_PARAMS_ERROR ) at the end of the stream. */
    method FailParams()
      requires Valid() && isClosed
      modifies this`errno, this`isClosed
      ensures Valid() && isClosed && Abs() == SetError(old(Abs()), PARAMS_ERROR)
    {
      SetStreamError(PARAMS_ERROR);
    }

    /** The rest of a length whose first byte has been read. */
    method ReadLengthBytes(first: Byte) returns (len: Option<nat>)
      requires Valid() && (req.begun || eorStop)
      modifies this, buff, req, req.conn
      ensures Valid() && req.conn == old(req.conn) && eorStop == old(eorStop) && (old(req.begun) ==> req.begun)
      ensures
        var (bs, fin) := Drain(old(Abs()));
        var pair := [first] + bs;
        match ReadLength(pair)
        case NoLength => len == None && isClosed && Abs() == SetError(fin, PARAMS_ERROR)
        case Length(v, k) => len == Some(v) && Drain(Abs()) == (pair[k..], fin)
      decreases if eorStop then 0 else 1, 3
    {
      hide FcgiReaderSpec.GetChar, FcgiReaderSpec.GetStr, Drain, SetError, ReaderStream.Abs, Valid;
      ghost var bs := Drain(Abs()).0;
      assert ([first] + bs)[1..] == bs;
      if first < 0x80 {
        return Some(first);
      }
      assert forall i :: 0 <= i < |bs| ==> ([first] + bs)[i + 1] == bs[i];
      var lenBuff := GetStr(3);
      if |lenBuff| != 3 {
        FailParams();
        return None;
      }
      assert Drain(Abs()).0 == bs[3..] == ([first] + bs)[4..];
      return Some(((first as int) - 0x80) * 0x1000000 + (lenBuff[0] as int) * 0x10000 + (lenBuff[1] as int) * 0x100
                  + lenBuff[2]);
    }

    /** Both lengths of a pair, after its first byte. */
    method ReadLengths(first: Byte) returns (lens: Option<(nat, nat)>)
      requires Valid() && (req.begun || eorStop)
      modifies this, buff, req, req.conn
      ensures Valid() && req.conn == old(req.conn) && eorStop == old(eorStop) && (old(req.begun) ==> req.begun)
      ensures
        var (bs, fin) := Drain(old(Abs()));
        match lens
        case None => ParsePair([first] + bs) == Cut && isClosed && Abs() == SetError(fin, PARAMS_ERROR)
        case Some((n, v)) =>
          var (body, end) := Drain(Abs());
          ParsePair([first] + bs) == ParseBody(body, n, v) && end == fin && |body| <= |bs|
      decreases if eorStop then 0 else 1, 4
    {
      hide FcgiReaderSpec.GetChar, FcgiReaderSpec.GetStr, Drain, SetError, ReadLength, ParseBody, ReaderStream.Abs,
           Valid;
      var nameLen := ReadLengthBytes(first);
      if nameLen.None? {
        return None;
      }
      ghost var afterName := Drain(Abs()).0;
      var second := GetChar();
      if second.None? {
        NoLengthInNothing();
        FailParams();
        return None;
      }
      assert [second.value] + Drain(Abs()).0 == afterName;
      var valueLen := ReadLengthBytes(second.value);
      if valueLen.None? {
        return None;
      }
      return Some((nameLen.value, valueLen.value));
    }

    /** One pass of ReadParams' loop, after the first byte of the pair. */
    method ReadPair(first: Byte) returns (entry: Option<Bytes>)
      requires Valid() && (req.begun || eorStop)
      modifies this, buff, req, req.conn
      ensures Valid() && req.conn == old(req.conn) && eorStop == old(eorStop) && (old(req.begun) ==> req.begun)
      ensures
        var (bs, fin) := Drain(old(Abs()));
        match ParsePair([first] + bs)
        case Cut => entry == None && isClosed && Abs() == SetError(fin, PARAMS_ERROR)
        case TooLarge => entry == None && isClosed && aborted && Abs() == Dead()
        case Whole(e, rest) => entry == Some(e) && Drain(Abs()) == (rest, fin)
      decreases if eorStop then 0 else 1, 5
    {
      hide FcgiReaderSpec.GetChar, FcgiReaderSpec.GetStr, Drain, SetError, MakeEntry, ParsePair, ReaderStream.Abs,
           Valid;
      var lens := ReadLengths(first);
      if lens.None? {
        return None;
      }
      var (nameLen, valueLen) := lens.value;
      if !EntryFits(nameLen, valueLen) {
        Abort();
        return None;
      }
      ghost var body := Drain(Abs()).0;
      var name := GetStr(nameLen);
      if |name| != nameLen {
        FailParams();
        return None;
      }
      assert name == body[..nameLen] && Drain(Abs()).0 == body[nameLen..];
      var value := GetStr(valueLen);
      if |value| != valueLen {
        FailParams();
        return None;
      }
      assert value == body[nameLen..nameLen + valueLen] && Drain(Abs()).0 == body[nameLen + valueLen..];
      return Some(MakeEntry(name, value));
    }

    /** One pass of ReadParams' loop: a whole pair is put into the vector, or ReadParams returns, unless the end of the
        stream or the size of the entry is not known. */
    method ReadNext(params: Params) returns (more: bool, rc: Option<int>)
      requires Valid() && (req.begun || eorStop) && params.Valid()
      modifies this, buff, req, req.conn, params, params.vec
      ensures Valid() && req.conn == old(req.conn) && eorStop == old(eorStop) && (old(req.begun) ==> req.begun)
      ensures params.Valid() && (params.vec == old(params.vec) || fresh(params.vec))
      ensures
        var (rest, fin) := Drain(old(Abs()));
        if more then
          && rest != [] && ParsePair(rest).Whole? && Drain(Abs()) == (ParsePair(rest).rest, fin)
          && params.Contents() == old(params.Contents()) + [ParsePair(rest).entry]
        else
          && (rest == [] || !ParsePair(rest).Whole?) && Abs() == ReadParamsEnd(rest, fin)
          && params.Contents() == old(params.Contents())
          && isClosed && rc == (if aborted then None else if rest == [] then Some(0) else Some(-1))
      decreases if eorStop then 0 else 1, 6
    {
      hide FcgiReaderSpec.GetChar, Drain, ParsePair, SetError, Params.Contents;
      ghost var rest := Drain(Abs()).0;
      var first := GetChar();
      if first.None? {
        return false, if aborted then None else Some(0);
      }
      assert [first.value] + rest[1..] == rest;
      var entry := ReadPair(first.value);
      if entry.None? {
        return false, if aborted then None else Some(-1);
      }
      params.PutParam(entry.value);
      return true, None;
    }

    /** ReadParams: reads pairs until the end of the stream. None: its defined behaviour has ended. */
    method ReadParams(params: Params) returns (rc: Option<int>)
      requires Valid() && (req.begun || eorStop) && params.Valid()
      modifies this, buff, req, req.conn, params, params.vec
      ensures Valid() && req.conn == old(req.conn) && eorStop == old(eorStop) && (old(req.begun) ==> req.begun)
      ensures params.Valid() && (params.vec == old(params.vec) || fresh(params.vec))
      ensures
        var (bs, fin) := Drain(old(Abs()));
        && Abs() == ReadParamsEnd(bs, fin)
        && params.Contents() == old(params.Contents()) + ParseParams(bs).entries
        && rc == if fin.aborted || ParseParams(bs).overflow then None
                 else if ParseParams(bs).ok then Some(0)
                 else Some(-1)
      ensures isClosed && (rc == None <==> aborted)
      decreases if eorStop then 0 else 1, 7
    {
      hide FcgiReaderSpec.GetChar, Drain, ParsePair, ParseParams, SetError, ParsedUpTo, ReaderStream.Abs, Valid,
           Params.Contents;
      ghost var all := Drain(Abs()).0;
      ghost var fin := Drain(Abs()).1;
      ghost var rest, added := all, [];
      ParsedNothing(all);
      ReadParamsAborts(all, fin);
      assert old(params.Contents()) + [] == old(params.Contents());
      var more := true;
      rc := None;
      while more
        invariant Valid() && req.conn == old(req.conn) && eorStop == old(eorStop) && (old(req.begun) ==> req.begun)
        invariant params.Valid() && (params.vec == old(params.vec) || fresh(params.vec))
        invariant more ==> Drain(Abs()) == (rest, fin)
        invariant ParsedUpTo(all, added, rest)
        invariant params.Contents() == old(params.Contents()) + added
        invariant !more ==>
                    && ParseParams(all) == Parsed(added, rest == [], rest != [] && ParsePair(rest).TooLarge?)
                    && Abs() == ReadParamsEnd(rest, fin) && ParseParams(rest).ok == ParseParams(all).ok
                    && ParseParams(rest).overflow == ParseParams(all).overflow
                    && isClosed && rc == (if aborted then None else if rest == [] then Some(0) else Some(-1))
        decreases more, |rest|
      {
        more, rc := ReadNext(params);
        if more {
          ParsedOneMore(all, added, rest);
          ConcatAssoc(old(params.Contents()), added, [ParsePair(rest).entry]);
          rest, added := ParsePair(rest).rest, added + [ParsePair(rest).entry];
        } else {
          ParsedAll(all, added, rest);
          SameEnd(all, added, rest);
        }
      }
      AbortedShows();
    }

    lemma AbortedShows()
      requires Valid()
      ensures Abs().aborted == aborted
    {
    }

    // ---------- headers ----------

    /** ProcessManagementRecord. */
    method ProcessManagementRecord(kind: Byte) returns (status: Status)
      requires Valid() && !isClosed && rdNext == stop && eorStop
      modifies this, buff, req, req.conn
      ensures Valid() && req.conn == old(req.conn) && (old(req.begun) ==> req.begun) && (isClosed || rdNext == stop)
      ensures status != BeginRecord && (status == Aborted <==> aborted)
      ensures (status, Abs()) == ProcessManagement(kind, old(Abs()))
      decreases 0, 10
    {
      hide ReadParamsEnd, EorContent, ParseParams, SetError, MakeHeader, MakeUnknownTypeBody, ValuesReply, Emit,
           ReplyFits;
      if kind == GET_VALUES {
        status := AnswerQuery();
        return;
      }
      var ok := WriteReply(MakeHeader(UNKNOWN_TYPE, NULL_REQUEST_ID, 8, 0) + MakeUnknownTypeBody(kind));
      return if ok then MgmtRecord else Failed(-1);
    }

    /** ProcessManagementRecord for FCGI_GET_VALUES. */
    method AnswerQuery() returns (status: Status)
      requires Valid() && !isClosed && rdNext == stop && eorStop
      modifies this, buff, req, req.conn
      ensures Valid() && req.conn == old(req.conn) && (old(req.begun) ==> req.begun) && (isClosed || rdNext == stop)
      ensures status != BeginRecord && (status == Aborted <==> aborted)
      ensures (status, Abs()) == ProcessManagement(GET_VALUES, old(Abs()))
      decreases 0, 9
    {
      hide EorContent, ParseParams, MakeHeader, ValuesReply, Emit, ReplyFits, ReadParamsEnd;
      ghost var start := Abs();
      ghost var entries := ParseParams(EorContent(start).0).entries;
      var params := ReadQuery();
      if aborted {
        return Aborted;
      }
      if errno != 0 || contentLen != 0 {
        return Failed(PROTOCOL_ERROR);
      }
      var response := AnswerValues(params);
      if response.None? {
        Abort();
        return Aborted;
      }
      var ok := WriteReply(response.value);
      return if ok then MgmtRecord else Failed(-1);
    }

    /** The variables a query asks for. */
    method ReadQuery() returns (params: Params)
      requires Valid() && !isClosed && eorStop
      modifies this, buff, req, req.conn
      ensures fresh(params) && params.Valid() && Valid() && isClosed
      ensures req.conn == old(req.conn) && (old(req.begun) ==> req.begun)
      ensures var (bs, fin) := EorContent(old(Abs()));
              Abs() == ReadParamsEnd(bs, fin) && params.Contents() == ParseParams(bs).entries
      decreases 0, 8
    {
      hide Drain, EorContent, ParseParams, ReadParamsEnd;
      DrainInsideRecord(Abs());
      params := new Params(3);
      ghost var bs := EorContent(Abs()).0;
      var rc := ReadParams(params);
      assert [] + ParseParams(bs).entries == ParseParams(bs).entries;
    }

    /** write_it_all for a reply, with its error branch. */
    method WriteReply(bs: Bytes) returns (ok: bool)
      requires Valid() && !aborted && (isClosed || rdNext == stop)
      modifies this`errno, this`isClosed, req.conn
      ensures Valid() && (isClosed || rdNext == stop)
      ensures ok <==> |bs| <= old(Abs()).room
      ensures Abs() == if ok then Emit(old(Abs()), bs) else SetError(Emit(old(Abs()), bs), old(Abs()).writeErrno)
    {
      ok := req.conn.WriteItAll(bs);
      if !ok {
        SetStreamError(req.conn.writeErrno);
      }
    }

    /** sprintf at some place of the response: the bytes and a NUL. */
    static method Print(response: array<Byte>, at: nat, bs: Bytes)
      requires at + |bs| + 1 <= response.Length
      modifies response
      ensures response[..at] == old(response[..at]) && response[at..at + |bs|] == bs && response[at + |bs|] == 0
      ensures forall i :: at + |bs| < i < response.Length ==> response[i] == old(response[i])
    {
      for i := 0 to |bs|
        invariant response[..at] == old(response[..at])
        invariant forall k :: 0 <= k < i ==> response[at + k] == bs[k]
        invariant forall k :: at + |bs| < k < response.Length ==> response[k] == old(response[k])
      {
        response[at + i] := bs[i];
      }
      response[at + |bs|] := 0;
    }

    /** strchr( name, '=' ): None is NULL. */
    static function Strchr(entry: Bytes): (r: Option<nat>)
      requires EQUALS in entry
      ensures r.Some? ==> r.value < |entry| && entry[..r.value] == NameOf(entry) && 0 !in NameOf(entry)
      ensures r.None? ==> 0 in NameOf(entry)
    {
      if entry[0] == EQUALS then Some(0)
      else if entry[0] == 0 then None
      else
        match Strchr(entry[1..])
        case None => None
        case Some(n) =>
          assert entry[..n + 1] == [entry[0]] + entry[1..][..n];
          Some(n + 1)
    }

    /** One variable of a query. None: a write missed the array, or went through NULL. */
    static method Answer(response: array<Byte>, end: nat, entry: Bytes) returns (longer: Option<nat>)
      requires response.Length == RESPONSE_SIZE && HEADER_LEN <= end < RESPONSE_SIZE && EQUALS in entry
      requires forall k :: end <= k < RESPONSE_SIZE ==> response[k] == 0
      modifies response
      ensures longer.None? <==> 0 in NameOf(entry) || end + |AnswerTo(entry)| + 1 > RESPONSE_SIZE
      ensures longer.Some? ==>
                && longer.value == end + |AnswerTo(entry)| < RESPONSE_SIZE
                && response[HEADER_LEN..longer.value] == old(response[HEADER_LEN..end]) + AnswerTo(entry)
                && forall k :: longer.value <= k < RESPONSE_SIZE ==> response[k] == 0
    {
      var equals := Strchr(entry);
      if equals.None? {
        return None;
      }
      var name := entry[..equals.value];
      var known := KnownValue(name);
      hide KnownValue;
      if known.None? {
        assert old(response[HEADER_LEN..end]) + [] == response[HEADER_LEN..end];
        return Some(end);
      }
      var answer := [|name| % 256, 1] + name + [known.value];
      if end + |answer| + 1 > RESPONSE_SIZE {
        return None;
      }
      Print(response, end, answer);
      longer := Some(end + |answer|);
      assert response[HEADER_LEN..longer.value] == response[..end][HEADER_LEN..] + response[end..end + |answer|];
      assert old(response[..end])[HEADER_LEN..] == old(response[HEADER_LEN..end]);
    }

    /** The answers to the variables of a GET_VALUES record, in an array of 64 bytes. None: a write missed the array, or
        went through NULL. */
    static method AnswerValues(params: Params) returns (answered: Option<Bytes>)
      requires params.Valid() && forall i :: 0 <= i < |params.Contents()| ==> EQUALS in params.Contents()[i]
      ensures answered == if ReplyFits(params.Contents()) then Some(ValuesReply(params.Contents())) else None
    {
      hide MakeHeader, ValuesBody, NamesEnd, AnswerTo, Zeros;
      var response := new Byte[RESPONSE_SIZE](_ => 0);
      var end := HEADER_LEN;
      ghost var entries := params.Contents();
      NothingAnswered(entries);
      for i := 0 to params.cur
        invariant HEADER_LEN <= end < RESPONSE_SIZE && response[HEADER_LEN..end] == ValuesBody(entries[..i])
        invariant NamesEnd(entries[..i]) && forall k :: end <= k < RESPONSE_SIZE ==> response[k] == 0
      {
        AnsweredOneMore(entries, i);
        var longer := Answer(response, end, params.vec[i].value);
        if longer.None? {
          return None;
        }
        end := longer.value;
      }
      assert entries[..params.cur] == entries;
      var reply := Reply(response, end);
      answered := Some(reply);
    }

    /** The bytes that are sent: header, answers and padding. */
    static method Reply(response: array<Byte>, end: nat) returns (reply: Bytes)
      requires response.Length == RESPONSE_SIZE && HEADER_LEN <= end < RESPONSE_SIZE
      requires forall k :: end <= k < RESPONSE_SIZE ==> response[k] == 0
      ensures
        var body := response[HEADER_LEN..end];
        var padding := AlignInt8(|body|) - |body|;
        reply == MakeHeader(GET_VALUES_RESULT, NULL_REQUEST_ID, |body|, padding) + body + Zeros(padding)
    {
      hide MakeHeader;
      var len := end - HEADER_LEN;
      var padded := AlignInt8(len);
      var header := MakeHeader(GET_VALUES_RESULT, NULL_REQUEST_ID, len, padded - len);
      ConcatAssoc(header, response[HEADER_LEN..end], Zeros(padded - len));
      assert response[HEADER_LEN..HEADER_LEN + padded] == response[HEADER_LEN..end] + Zeros(padded - len);
      reply := header + response[HEADER_LEN..HEADER_LEN + padded];
    }

    /** ProcessBeginRecord. */
    method ProcessBeginRecord(requestId: int) returns (status: Status)
      requires Valid() && !isClosed && rdNext == stop && eorStop
      modifies this, buff, req, req.conn
      ensures Valid() && req.conn == old(req.conn) && (old(req.begun) ==> req.begun) && (isClosed || rdNext == stop)
      ensures (status == BeginRecord ==> rdNext == stop) && status != Aborted && !aborted
      ensures (status, Abs()) == ProcessBegin(requestId, old(Abs()))
      decreases 0, 7
    {
      hide BeginBody, SetError, MakeHeader, MakeEndRequestBody, Emit;
      if requestId == 0 || contentLen != 8 {
        return Failed(PROTOCOL_ERROR);
      }
      if req.begun {
        var ok := WriteReply(MakeHeader(END_REQUEST, requestId, 8, 0) + MakeEndRequestBody(0, CANT_MPX_CONN));
        return if ok then Skip else Failed(-1);
      }
      status := AcceptBegin(requestId);
    }

    /** ProcessBeginRecord for a connection without a request. */
    method AcceptBegin(requestId: int) returns (status: Status)
      requires Valid() && !isClosed && rdNext == stop && eorStop && !req.begun && contentLen == 8
      modifies this, buff, req, req.conn
      ensures Valid() && req.conn == old(req.conn) && (isClosed || rdNext == stop)
      ensures (status == BeginRecord ==> rdNext == stop) && status != Aborted && !aborted
      ensures var (body, s) := BeginBody(old(Abs()).(requestId := requestId));
              (status, Abs()) ==
              if |body| != 8 then (Failed(PROTOCOL_ERROR), s)
              else (BeginRecord, s.(keep := body[2] % 2 == 1, role := (body[0] as int) * 256 + body[1], begun := true))
      decreases 0, 6
    {
      hide FcgiReaderSpec.GetStr, BeginBody, Drain;
      req.requestId := requestId;
      BeginBodyIsGetStr(Abs());
      var body := GetStr(8);
      if |body| != 8 {
        return Failed(PROTOCOL_ERROR);
      }
      req.keep := body[2] % 2 == 1;
      req.role := (body[0] as int) * 256 + body[1];
      req.begun := true;
      return BeginRecord;
    }

    /** ProcessHeader. */
    method ProcessHeader(header: Bytes) returns (status: Status)
      requires Valid() && !isClosed && rdNext == stop && eorStop && |header| == HEADER_LEN
      modifies this, buff, req, req.conn
      ensures Valid() && req.conn == old(req.conn) && (old(req.begun) ==> req.begun) && (isClosed || rdNext == stop)
      ensures (status == BeginRecord ==> rdNext == stop) && (status == Aborted <==> aborted)
      ensures (status, Abs()) == FcgiReaderSpec.ProcessHeader(header, old(Abs()))
      decreases 0, 11
    {
      hide ProcessManagement, ProcessBegin;
      if header[0] != VERSION_1 {
        return Failed(UNSUPPORTED_VERSION);
      }
      var requestId := HeaderRequestId(header);
      contentLen := HeaderContentLength(header);
      paddingLen := header[6];
      if header[1] == BEGIN_REQUEST {
        status := ProcessBeginRecord(requestId);
        return;
      }
      if requestId == NULL_REQUEST_ID {
        status := ProcessManagementRecord(header[1]);
        return;
      }
      if requestId != req.requestId {
        return Skip;
      }
      if header[1] != kind {
        return Failed(PROTOCOL_ERROR);
      }
      return StreamRecord;
    }

    /** Interprets a complete header. */
    method Interpret(header: Bytes) returns (done: bool)
      requires Indices() && !isClosed && !aborted && !eorStop && |header| == HEADER_LEN && contentLen == 0
      modifies this, buff, req, req.conn
      ensures Indices() && !eorStop && (done ==> Valid()) && req.conn == old(req.conn)
      ensures match OnHeader(header, old(Raw()))
              case Return(s) => done && Abs() == s
              case Loop(s) => !done && !isClosed && !aborted && Raw() == s
      ensures old(req.begun) ==> req.begun && (done ==> isClosed)
      decreases 0, 13
    {
      hide OnHeader, FcgiReaderSpec.ProcessHeader, AfterStatus;
      OnHeaderKeepsBegun(header, Raw());
      var status := ProcessInside(header);
      AbortedReturns(Raw());
      done := Follow(status);
    }

    /** ProcessHeader, kept inside the record by eorStop. */
    method ProcessInside(header: Bytes) returns (status: Status)
      requires Indices() && !isClosed && !aborted && !eorStop && |header| == HEADER_LEN && contentLen == 0
      modifies this, buff, req, req.conn
      ensures Indices() && !eorStop && !isClosed && req.conn == old(req.conn) && (old(req.begun) ==> req.begun)
      ensures (status == BeginRecord ==> rdNext == stop) && (status == Aborted <==> aborted)
      ensures OnHeader(header, old(Raw())) == if aborted then Return(Dead()) else AfterStatus(status, Raw())
      decreases 0, 12
    {
      hide OnHeader, FcgiReaderSpec.ProcessHeader, AfterStatus;
      ghost var before := Raw();
      eorStop := true;
      stop := rdNext;
      status := ProcessHeader(header);
      OnHeaderSteps(header, before, status, Abs());
      AbortedReturns(Abs().(eorStop := false, closed := false));
      eorStop := false;
      isClosed := false;
    }

    /** FillBuffProc's switch on the status of a header. */
    method Follow(status: Status) returns (done: bool)
      requires Indices() && !isClosed && !eorStop && (status == BeginRecord ==> rdNext == stop)
      requires status == Aborted <==> aborted
      modifies this`stop, this`isClosed, this`skip, this`errno
      ensures Indices() && (done ==> Valid())
      ensures match AfterStatus(status, old(Raw()))
              case Return(s) => done && Abs() == s
              case Loop(s) => !done && !isClosed && !aborted && Raw() == s
    {
      match status {
        case StreamRecord =>
          if contentLen == 0 {
            stop := rdNext;
            isClosed := true;
            return true;
          }
          return false;
        case Skip =>
          skip := true;
          return false;
        case BeginRecord =>
          return true;
        case MgmtRecord =>
          return false;
        case Failed(code) =>
          SetStreamError(code);
          return true;
        case Aborted =>
          isClosed := true;
          return true;
      }
    }
  }
}
