/** The writing stream of fcgiapp.c: content is collected behind a reserved header slot of a byte buffer,
    and the header and padding are filled in when the buffer is emptied. Every method is tied to the
    value functions of FcgiWriterSpec. */
module FcgiWriter {
  import opened FcgiWire
  import opened FcgiConnection
  import opened FcgiWriterSpec
  import Steps = FcgiWriterSteps

  class WriterStream {
    const buff: array<Byte>
    const req: Request
    var wrNext: nat
    var stop: nat
    var kind: Byte
    var anyWritten: bool
    var rawWrite: bool
    var isClosed: bool
    var wasFCloseCalled: bool
    var errno: int

    ghost predicate Valid()
      reads this
    {
      && buff.Length % 8 == 0 && 24 <= buff.Length <= MAX_LENGTH + 1
      && wrNext <= stop <= buff.Length
      && (!rawWrite ==> HEADER_LEN <= wrNext)
      && (if wasFCloseCalled then stop == wrNext && isClosed && rawWrite else stop == buff.Length)
    }

    ghost function Abs(): (w: Writer)
      requires Valid()
      reads this, buff
      ensures w.Sound()
    {
      Writer(kind, buff.Length, if rawWrite then buff[..wrNext] else buff[HEADER_LEN..wrNext],
             anyWritten, rawWrite, isClosed, wasFCloseCalled, errno)
    }

    ghost function Env(): Shared
      reads this, req, req.conn
    {
      Shared(req.requestId, req.nWriters, req.appStatus, req.conn.outgoing, req.conn.room, req.conn.writeErrno)
    }

    /** NewStream for a writer. misaligned says whether AlignPtr8 moved the allocated buffer. */
    constructor (req: Request, bufflen: int, misaligned: bool, kind: Byte)
      ensures Valid() && fresh(buff) && this.req == req
      ensures Abs() == Writer(kind, BufferSize(bufflen, misaligned), [], false, false, false, false, 0)
    {
      var size := BufferSize(bufflen, misaligned);
      buff := new Byte[size](_ => 0);
      this.req, this.kind := req, kind;
      wrNext, stop := HEADER_LEN, size;
      anyWritten, rawWrite, isClosed, wasFCloseCalled, errno := false, false, false, false, 0;
    }

    /** Copies bytes into the buffer. */
    method Copy(at: nat, bs: Bytes)
      requires at + |bs| <= buff.Length
      modifies buff
      ensures buff[..at] == old(buff[..at]) && buff[at..at + |bs|] == bs
    {
      for i := 0 to |bs|
        invariant buff[..at] == old(buff[..at])
        invariant buff[at..at + i] == bs[..i]
      {
        buff[at + i] := bs[i];
        assert buff[at..at + i + 1] == buff[at..at + i] + [bs[i]];
      }
    }

    /** Copies bytes to the write position. */
    method Store(bs: Bytes)
      requires Valid() && |bs| <= stop - wrNext
      modifies this`wrNext, buff
      ensures Valid() && wrNext == old(wrNext) + |bs|
      ensures Abs() == old(Abs()).(buf := old(Abs()).buf + bs)
    {
      ghost var w := Abs();
      var start := if rawWrite then 0 else HEADER_LEN;
      var at := wrNext;
      assert buff[..at][start..] == w.buf;
      Copy(at, bs);
      wrNext := at + |bs|;
      assert buff[start..wrNext] == buff[..at][start..] + buff[at..wrNext];
    }

    /** Overwrites the reserved header slot. */
    method FillHeader(header: Bytes)
      requires |header| == HEADER_LEN <= wrNext <= buff.Length
      modifies buff
      ensures buff[..wrNext] == header + old(buff[HEADER_LEN..wrNext])
      ensures buff[HEADER_LEN..wrNext] == old(buff[HEADER_LEN..wrNext])
    {
      ghost var body := buff[HEADER_LEN..wrNext];
      for i := 0 to HEADER_LEN
        invariant buff[..i] == header[..i]
        invariant buff[HEADER_LEN..wrNext] == body
      {
        buff[i] := header[i];
        assert buff[..i + 1] == buff[..i] + [header[i]];
      }
      assert buff[..wrNext] == buff[..HEADER_LEN] + buff[HEADER_LEN..wrNext];
    }

    /** Fills in the padding behind the content and the header in front of it; no content, no record. */
    method Seal()
      requires Valid() && !rawWrite
      modifies this`wrNext, buff
      ensures wrNext <= buff.Length && (!wasFCloseCalled ==> wrNext <= stop)
      ensures buff[..wrNext] == Outgoing(old(Abs()), Env())
      ensures wrNext > 0 ==> HEADER_LEN <= wrNext && buff[HEADER_LEN..wrNext] == Padded(old(Abs()))
    {
      hide MakeHeader, Outgoing, Zeros;
      ghost var w := Abs();
      var cLen := wrNext - HEADER_LEN;
      if cLen > 0 {
        var eLen := AlignInt8(cLen);
        assert HeaderFits(cLen, eLen - cLen);
        assert w.buf == buff[HEADER_LEN..wrNext];
        Store(Zeros(eLen - cLen));
        assert buff[HEADER_LEN..wrNext] == Padded(w);
        FillHeader(MakeHeader(kind, req.requestId, cLen, eLen - cLen));
        Steps.SealedBytes(w, Env());
      } else {
        wrNext := 0;
        Steps.SealedNothing(w, Env());
      }
    }

    /** Writes the buffer out, making it empty. */
    method WriteBuffer() returns (ok: bool)
      requires wrNext <= buff.Length
      modifies this`wrNext, this`anyWritten, this`isClosed, this`errno,
               req.conn`outgoing, req.conn`room, req.conn`stalls
      ensures ok <==> wrNext == 0
      ensures old(wrNext) == 0 ==> ok && unchanged(this) && unchanged(req.conn)
      ensures old(wrNext) > 0 ==> anyWritten && (ok <==> old(wrNext) <= old(req.conn.room))
      ensures ok ==> isClosed == old(isClosed) && errno == old(errno)
                     && req.conn.outgoing == old(req.conn.outgoing) + buff[..old(wrNext)]
                     && req.conn.room == old(req.conn.room) - old(wrNext)
      ensures !ok ==> isClosed && errno == (if old(errno) == 0 then req.conn.writeErrno else old(errno))
                      && wrNext == old(wrNext) && req.conn.room == 0
                      && req.conn.outgoing == old(req.conn.outgoing) + buff[..wrNext][..old(req.conn.room)]
    {
      if wrNext != 0 {
        anyWritten := true;
        ok := req.conn.WriteItAll(buff[..wrNext]);
        if !ok {
          if errno == 0 {
            errno := req.conn.writeErrno;
          }
          isClosed := true;
          return;
        }
        wrNext := 0;
      }
      ok := true;
      assert buff[..0] == [];
      assert old(req.conn.outgoing) + [] == old(req.conn.outgoing);
    }

    /** EmptyBuffProc without closing. */
    method EmptyBuffer()
      requires Valid() && !wasFCloseCalled
      modifies this, buff, req.conn`outgoing, req.conn`room, req.conn`stalls
      ensures Valid() && wasFCloseCalled == old(wasFCloseCalled) && rawWrite == old(rawWrite) && unchanged(req)
      ensures (Abs(), Env()) == Flush(old(Abs()), old(Env()))
    {
      hide MakeHeader, Zeros;
      ghost var w, s := Abs(), Env();
      if !rawWrite {
        Seal();
      }
      assert buff[..wrNext] == Outgoing(w, s);
      var ok := WriteBuffer();
      if ok && !rawWrite {
        wrNext := wrNext + HEADER_LEN;
      }
    }

    /** FCGX_PutChar. */
    method PutChar(c: Byte) returns (ok: bool)
      requires Valid()
      modifies this, buff, req.conn`outgoing, req.conn`room, req.conn`stalls
      ensures Valid() && unchanged(req)
      ensures Result(ok, Abs(), Env()) == FcgiWriterSpec.PutChar(old(Abs()), old(Env()), c)
    {
      hide Flush;
      ghost var w, s := Abs(), Env();
      if wrNext != stop {
        Store([c]);
        return true;
      }
      if isClosed {
        return false;
      }
      Steps.FlushMakesRoom(w, s);
      EmptyBuffer();
      if wrNext != stop {
        Store([c]);
        return true;
      }
      return false;
    }

    /** FCGX_PutStr: the same stream and the same wire as one FCGX_PutChar for every byte. */
    method PutStr(bs: Bytes) returns (ok: bool)
      requires Valid()
      modifies this, buff, req.conn`outgoing, req.conn`room, req.conn`stalls
      ensures Valid() && unchanged(req) && wasFCloseCalled == old(wasFCloseCalled) && rawWrite == old(rawWrite)
      ensures Result(ok, Abs(), Env()) == FcgiWriterSpec.PutStr(old(Abs()), old(Env()), bs)
    {
      hide FcgiWriterSpec.PutStr, Flush;
      ghost var wanted := FcgiWriterSpec.PutStr(Abs(), Env(), bs);
      if |bs| <= stop - wrNext {
        Steps.PutFits(Abs(), Env(), bs);
        Store(bs);
        return true;
      }
      var moved := 0;
      assert bs[0..] == bs;
      while true
        invariant Valid() && unchanged(req) && wasFCloseCalled == old(wasFCloseCalled) && rawWrite == old(rawWrite)
        invariant moved < |bs|
        invariant FcgiWriterSpec.PutStr(Abs(), Env(), bs[moved..]) == wanted
        decreases !isClosed, |bs| - moved, wrNext == stop
      {
        if wrNext != stop {
          var m := if |bs| - moved <= stop - wrNext then |bs| - moved else stop - wrNext;
          assert bs[moved..] == bs[moved..moved + m] + bs[moved + m..];
          Steps.PutFits(Abs(), Env(), bs[moved..moved + m]);
          Steps.PutSplit(Abs(), Env(), bs[moved..moved + m], bs[moved + m..]);
          Store(bs[moved..moved + m]);
          moved := moved + m;
          if moved == |bs| {
            Steps.PutFits(Abs(), Env(), []);
            assert bs[moved..] == [] && Abs().buf + [] == Abs().buf;
            return true;
          }
        }
        if isClosed {
          Steps.PutToClosed(Abs(), Env(), bs[moved..]);
          return false;
        }
        Steps.PutAfterFlush(Abs(), Env(), bs[moved..]);
        Steps.FlushMakesRoom(Abs(), Env());
        EmptyBuffer();
      }
    }

    /** FCGX_FFlush. */
    method FFlush() returns (ok: bool)
      requires Valid()
      modifies this, buff, req.conn`outgoing, req.conn`room, req.conn`stalls
      ensures Valid() && unchanged(req)
      ensures Result(ok, Abs(), Env()) == FcgiWriterSpec.FFlush(old(Abs()), old(Env()))
    {
      hide Flush;
      if isClosed {
        return true;
      }
      EmptyBuffer();
      return !isClosed;
    }

    /** The stream between filling in the last header and entering raw mode: everything in the buffer is
        ready for the wire. */
    ghost predicate Sealed()
      reads this
    {
      && buff.Length % 8 == 0 && 24 <= buff.Length <= MAX_LENGTH + 1
      && wrNext <= stop == buff.Length && !wasFCloseCalled
    }

    ghost function SealedAbs(): Writer
      requires Sealed()
      reads this, buff
    {
      Writer(kind, buff.Length, buff[..wrNext], anyWritten, rawWrite, isClosed, wasFCloseCalled, errno)
    }

    /** WriteCloseRecords. */
    method WriteCloseRecords()
      requires Sealed()
      modifies this, buff, req`nWriters, req.conn`outgoing, req.conn`room, req.conn`stalls
      ensures Valid() && rawWrite && !wasFCloseCalled
      ensures (Abs(), Env()) == FcgiWriterSpec.WriteCloseRecords(old(SealedAbs()), old(Env()))
    {
      hide FcgiWriterSpec.PutStr, MakeHeader, MakeEndRequestBody;
      rawWrite := true;
      ghost var s := Env();
      if !(kind == STDERR && wrNext == 0 && !anyWritten) {
        Steps.EofBytes(Abs(), Env());
        var _ := PutStr(MakeHeader(kind, req.requestId, 0, 0));
      }
      if req.nWriters == 1 {
        Steps.EndRequestBytes(s);
        var _ := PutStr(MakeHeader(END_REQUEST, req.requestId, 8, 0)
                        + MakeEndRequestBody(req.appStatus, REQUEST_COMPLETE));
      }
      req.nWriters := req.nWriters - 1;
    }

    /** EmptyBuffProc with doClose. */
    method EmptyAndClose()
      requires Valid() && !wasFCloseCalled && !rawWrite
      modifies this, buff, req`nWriters, req.conn`outgoing, req.conn`room, req.conn`stalls
      ensures Valid() && rawWrite && !wasFCloseCalled
      ensures (Abs(), Env()) == FlushAndClose(old(Abs()), old(Env()))
    {
      hide FcgiWriterSpec.WriteCloseRecords, Flush, Outgoing;
      ghost var w, s := Abs(), Env();
      Seal();
      assert SealedAbs() == w.(buf := Outgoing(w, s));
      WriteCloseRecords();
      EmptyBuffer();
    }

    /** FCGX_FClose. */
    method FClose() returns (ok: bool)
      requires Valid() && (!wasFCloseCalled ==> !rawWrite)
      modifies this, buff, req`nWriters, req.conn`outgoing, req.conn`room, req.conn`stalls
      ensures Valid() && wasFCloseCalled && (ok <==> errno == 0)
      ensures Result(ok, Abs(), Env()) == FcgiWriterSpec.FClose(old(Abs()), old(Env()))
    {
      hide FlushAndClose;
      if !wasFCloseCalled {
        EmptyAndClose();
        wasFCloseCalled := true;
        isClosed := true;
        stop := wrNext;
      }
      return errno == 0;
    }
  }
}
